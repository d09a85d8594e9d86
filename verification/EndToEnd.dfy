/** From a write handler on the primary to the replica's database: handlers, log and shipping together. */
module EndToEnd {
  import opened Bytes
  import opened Common
  import opened CommandCodec
  import opened FieldCodec
  import opened KeySpace
  import opened FieldStore
  import opened LogModel
  import opened LogStore
  import opened LogTheorems
  import opened Replication

  /** What a handler does to the primary's database and then logs. */
  datatype Command =
    | PutCommand(key: Bytes, value: Bytes)
    | DeleteCommand(key: Bytes)
    | FieldsCommand(fb: FieldBatch)

  function PrimaryWrites(pid: u32, c: Command): seq<Write> {
    match c
    case PutCommand(key, value) => [Write(PartitionKey(pid, key), Some(value))]
    case DeleteCommand(key) => [Write(PartitionKey(pid, key), None)]
    case FieldsCommand(fb) => BatchWrites(pid, fb)
  }

  function LogStep(c: Command, timestamp: nat, num: nat): Step {
    match c
    case PutCommand(key, value) => Append(timestamp, CMD_PUT, key, value, num)
    case DeleteCommand(key) => Append(timestamp, CMD_DELETE, key, [], num)
    case FieldsCommand(fb) => Append(timestamp, CMD_FIELD_BATCH, [], Versioned(fb), num)
  }

  datatype Site = Site(primary: Db, world: World)

  datatype Event =
      // a handler: the database write, then the log entry
    | Serves(c: Command, timestamp: nat, num: nat)
      // a handler whose log entry fails
    | ServesUnlogged(c: Command)
    | Acts(action: Action)

  ghost predicate Possible(s: Site, e: Event) {
    match e
    case Serves(c, timestamp, num) =>
      && Enabled(s.world.log, LogStep(c, timestamp, num))
      && (c.FieldsCommand? ==> WellFormed(c.fb) && c.fb.partitionId == s.world.pid)
    case ServesUnlogged(_) => true
    case Acts(action) => action.Logs? ==> (action.step.Flush? || action.step.Restart?) && Enabled(s.world.log, action.step)
  }

  function Happens(crc: Checksum, s: Site, e: Event): Site
    requires Possible(s, e)
  {
    match e
    case Serves(c, timestamp, num) =>
      Site(ApplyWrites(s.primary, PrimaryWrites(s.world.pid, c)), Act(crc, s.world, Logs(LogStep(c, timestamp, num))))
    case ServesUnlogged(c) =>
      Site(ApplyWrites(s.primary, PrimaryWrites(s.world.pid, c)), Act(crc, s.world, Logs(AppendFailed)))
    case Acts(action) => s.(world := Act(crc, s.world, action))
  }

  /** The action of log and shipping that an event contains. */
  function ActionOf(e: Event): Action {
    match e
    case Serves(c, timestamp, num) => Logs(LogStep(c, timestamp, num))
    case ServesUnlogged(_) => Logs(AppendFailed)
    case Acts(action) => action
  }

  /** Nothing the primary has written misses the log: every entry is logged, and a crash leaves nothing in the buffer. */
  predicate Lossless(s: Site, e: Event) {
    !e.ServesUnlogged? && (e.Acts? && e.action.Logs? && e.action.step.Restart? ==> e.action.step.survived == |s.world.log.buffered|)
  }

  ghost predicate IsSiteRun(crc: Checksum, ss: seq<Site>, events: seq<Event>) {
    && |ss| == |events| + 1
    && ss[0].world == Start(crc, ss[0].world.pid, ss[0].primary, ss[0].world.held, ss[0].world.status, ss[0].world.log.current.num)
    && forall i :: 0 <= i < |events| ==> Possible(ss[i], events[i]) && ss[i + 1] == Happens(crc, ss[i], events[i])
  }

  ghost predicate Mirrors(crc: Checksum, s: Site) {
    Valid(crc, s.world.log) && s.primary == Replay(s.world.pid, s.world.base, Written(crc, s.world.log))
  }

  /** The replica makes of a logged entry the very writes the handler made. */
  lemma LoggedRepeats(l: Log, pid: u32, c: Command, timestamp: nat, num: nat)
    requires c.FieldsCommand? ==> WellFormed(c.fb) && c.fb.partitionId == pid
    ensures var step := LogStep(c, timestamp, num);
            EntryWrites(pid, NewEntry(l, timestamp, step.cmdType, step.key, step.value)) == Some(PrimaryWrites(pid, c))
  {
    hide PartitionKey, DecodeFieldBatch, Versioned, BatchWrites;
    if c.FieldsCommand? {
      LoggedBatchRepeatsPrimary(pid, c.fb, l.currentSeq + 1, timestamp);
    }
  }

  lemma ReplayOneMore(pid: u32, db: Db, es: seq<Entry>, e: Entry)
    requires EntryWrites(pid, e).Some?
    ensures Replay(pid, db, es + [e]) == ApplyWrites(Replay(pid, db, es), EntryWrites(pid, e).value)
  {
    hide EntryWrites, ApplyWrites;
    ReplayConcat(pid, db, es, [e]);
    assert Init([e]) == [];
    assert WritesOf(pid, [e]) == EntryWrites(pid, e).value;
  }

  lemma ServeMirrors(crc: Checksum, s: Site, c: Command, timestamp: nat, num: nat)
    requires Mirrors(crc, s) && Possible(s, Serves(c, timestamp, num))
    ensures Mirrors(crc, Happens(crc, s, Serves(c, timestamp, num)))
  {
    hide Valid, Written, Replay, Do, EntryWrites, PrimaryWrites, ApplyWrites;
    var l, step := s.world.log, LogStep(c, timestamp, num);
    var e := NewEntry(l, timestamp, step.cmdType, step.key, step.value);
    StepKeeps(crc, l, step);
    AppendWrites(crc, l, step);
    LoggedRepeats(l, s.world.pid, c, timestamp, num);
    ReplayOneMore(s.world.pid, s.world.base, Written(crc, l), e);
  }

  lemma LogStepMirrors(crc: Checksum, s: Site, step: Step)
    requires Mirrors(crc, s) && Possible(s, Acts(Logs(step))) && Lossless(s, Acts(Logs(step)))
    ensures Mirrors(crc, Happens(crc, s, Acts(Logs(step))))
  {
    hide Valid, Written, Replay, OnDisk;
    var l := s.world.log;
    StepKeeps(crc, l, step);
    if step.Flush? {
      FlushKeeps(crc, l, step.handed);
    } else {
      RestartKeeps(crc, l, step.survived, step.num);
      FlushAll(crc, l);
    }
  }

  lemma ActionKeepsOthers(crc: Checksum, s: Site, action: Action)
    requires !action.Logs?
    ensures var w := Act(crc, s.world, action); w.log == s.world.log && w.pid == s.world.pid && w.base == s.world.base
  {
    hide Replay, NextBatch, AppliedCount;
  }

  /** As long as nothing is lost between database and log, the primary's data is the replay of what was written to the log. */
  lemma {:induction false} PrimaryIsReplayOfLog(crc: Checksum, ss: seq<Site>, events: seq<Event>, n: nat)
    requires IsSiteRun(crc, ss, events) && n < |ss|
    requires forall i :: 0 <= i < n ==> Lossless(ss[i], events[i])
    ensures Mirrors(crc, ss[n])
  {
    hide Mirrors, Possible, Lossless, Act;
    if n == 0 {
      StartMirrors(crc, ss[0]);
    } else {
      PrimaryIsReplayOfLog(crc, ss, events, n - 1);
      var s, e := ss[n - 1], events[n - 1];
      assert ss[n - 1 + 1] == Happens(crc, s, e);
      EventMirrors(crc, s, e);
    }
  }

  lemma EventMirrors(crc: Checksum, s: Site, e: Event)
    requires Mirrors(crc, s) && Possible(s, e) && Lossless(s, e)
    ensures Mirrors(crc, Happens(crc, s, e))
  {
    hide Act, Valid, Written, Replay;
    match e {
      case Serves(c, timestamp, num) => ServeMirrors(crc, s, c, timestamp, num);
      case Acts(action) =>
        if action.Logs? {
          LogStepMirrors(crc, s, action.step);
        } else {
          ActionKeepsOthers(crc, s, action);
        }
    }
  }

  lemma StartMirrors(crc: Checksum, s: Site)
    requires s.world == Start(crc, s.world.pid, s.primary, s.world.held, s.world.status, s.world.log.current.num)
    ensures Mirrors(crc, s)
  {
    hide Valid, Written, Replay;
    FreshIsEmpty(crc, s.world.log.current.num);
    ReplayNothing(s.world.pid, s.primary);
  }

  // ---- What runs that lose something have lost ----

  /** How many of the first `n` events are handlers. */
  function ServedUpTo(events: seq<Event>, n: nat): nat
    requires n <= |events|
  {
    if n == 0 then 0 else ServedUpTo(events, n - 1) + if events[n - 1].Acts? then 0 else 1
  }

  ghost predicate LostNothing(ss: seq<Site>, events: seq<Event>, n: nat)
    requires n <= |events| < |ss|
  {
    forall i :: 0 <= i < n ==> Lossless(ss[i], events[i])
  }

  lemma EventCounts(crc: Checksum, s: Site, e: Event)
    requires Valid(crc, s.world.log) && Possible(s, e)
    ensures var before, after := |Written(crc, s.world.log)|, |Written(crc, Happens(crc, s, e).world.log)|;
            && Valid(crc, Happens(crc, s, e).world.log)
            && after <= before + (if e.Acts? then 0 else 1)
            && (after == before + (if e.Acts? then 0 else 1) <==> Lossless(s, e))
  {
    hide Valid, Written, Replay, OnDisk, ApplyWrites, PrimaryWrites, NextBatch, AppliedCount;
    var l := s.world.log;
    match e {
      case Serves(c, timestamp, num) =>
        StepKeeps(crc, l, LogStep(c, timestamp, num));
        AppendWrites(crc, l, LogStep(c, timestamp, num));
      case ServesUnlogged(_) =>
        StepKeeps(crc, l, AppendFailed);
        FailureWritesNothing(crc, l);
      case Acts(action) =>
        if !action.Logs? {
          ActionKeepsOthers(crc, s, action);
        } else if action.step.Flush? {
          StepKeeps(crc, l, action.step);
          FlushKeeps(crc, l, action.step.handed);
        } else {
          StepKeeps(crc, l, action.step);
          RestartLosesNothing(crc, l, action.step.survived, action.step.num);
        }
    }
  }

  lemma FailureWritesNothing(crc: Checksum, l: Log)
    ensures Written(crc, Do(crc, l, AppendFailed)) == Written(crc, l)
  {
  }

  /**
   * In every run the log holds at most one entry per handler, and exactly one exactly when
   * nothing was lost: no log entry failed and no crash left anything in the buffer.
   */
  lemma {:induction false} LogCountsHandlers(crc: Checksum, ss: seq<Site>, events: seq<Event>, n: nat)
    requires IsSiteRun(crc, ss, events) && n < |ss|
    ensures Valid(crc, ss[n].world.log)
    ensures |Written(crc, ss[n].world.log)| <= ServedUpTo(events, n)
    ensures |Written(crc, ss[n].world.log)| == ServedUpTo(events, n) <==> LostNothing(ss, events, n)
  {
    hide Valid, Written, Possible, Lossless, Happens;
    if n == 0 {
      FreshIsEmpty(crc, ss[0].world.log.current.num);
    } else {
      LogCountsHandlers(crc, ss, events, n - 1);
      var s, e := ss[n - 1], events[n - 1];
      assert ss[n - 1 + 1] == Happens(crc, s, e);
      EventCounts(crc, s, e);
    }
  }

  /**
   * So an acknowledged put can be lost to the replica: any put that fits the write buffer, served,
   * then a crash before any of it reaches the file. Everything is flushed, nothing is left to
   * ship, and the replica lacks what the primary has.
   */
  lemma AcknowledgedPutIsLost(crc: Checksum, pid: u32, key: Bytes, value: Bytes) returns (ss: seq<Site>, events: seq<Event>)
    requires Fits(Entry(1, 0, CMD_PUT, key, value)) && Size(Entry(1, 0, CMD_PUT, key, value)) <= LOG_BUFFER_SIZE
    ensures IsSiteRun(crc, ss, events) && |ss| == 3 && events[0] == Serves(PutCommand(key, value), 0, 2)
    ensures ss[2].world.log.buffered == [] && NextBatch(crc, ss[2].world) == []
    ensures ss[2].world.held && ss[2].world.status.Normal?
    ensures PartitionKey(pid, key) in ss[2].primary && PartitionKey(pid, key) !in ss[2].world.replica
  {
    hide Valid, Written, Encoding, Fits, Size, PartitionKey, OnDisk;
    var s0 := Site(map[], Start(crc, pid, map[], true, Normal, 1));
    var put, crash := Serves(PutCommand(key, value), 0, 2), Acts(Logs(Restart(0, 3)));
    FreshIsEmpty(crc, 1);
    var s1 := Happens(crc, s0, put);
    OneWriteApplied(Write(PartitionKey(pid, key), Some(value)));
    StepKeeps(crc, s0.world.log, LogStep(put.c, 0, 2));
    AppendWrites(crc, s0.world.log, LogStep(put.c, 0, 2));
    FirstBuffered(crc, s0.world.log, Entry(1, 0, CMD_PUT, key, value));
    var s2 := Happens(crc, s1, crash);
    RestartLosesNothing(crc, s1.world.log, 0, 3);
    RestartKeeps(crc, s1.world.log, 0, 3);
    assert Written(crc, s2.world.log) == [];
    ss, events := [s0, s1, s2], [put, crash];
  }

  lemma OneWriteApplied(w: Write)
    ensures ApplyWrites(map[], [w]) == ApplyWrite(map[], w)
  {
    assert [w][..0] == [];
  }

  lemma FirstBuffered(crc: Checksum, l: Log, e: Entry)
    requires l == Fresh(crc, 1)
    ensures Buffered(crc, ReadyFor(l, e, 2), e).buffered != [] && Buffered(crc, ReadyFor(l, e, 2), e).current.num <= 2
  {
  }

  // ---- A batch put ----

  predicate ArePuts(events: seq<Event>) {
    forall i :: 0 <= i < |events| ==> !events[i].Acts? && events[i].c.PutCommand?
  }

  /** All the database writes of a batch, in order. */
  function WritesOfAll(pid: u32, puts: seq<Event>): seq<Write>
    requires ArePuts(puts)
  {
    if puts == [] then [] else PrimaryWrites(pid, puts[0].c) + WritesOfAll(pid, puts[1..])
  }

  ghost predicate CanLogEach(crc: Checksum, w: World, puts: seq<Event>)
    requires ArePuts(puts)
    decreases |puts|
  {
    puts != [] ==>
      && Enabled(w.log, ActionOf(puts[0]).step)
      && CanLogEach(crc, Act(crc, w, ActionOf(puts[0])), puts[1..])
  }

  /** The log entries of a batch, one after the other; each may fail. */
  ghost function LogEach(crc: Checksum, w: World, puts: seq<Event>): World
    requires ArePuts(puts) && CanLogEach(crc, w, puts)
    decreases |puts|
  {
    if puts == [] then w else LogEach(crc, Act(crc, w, ActionOf(puts[0])), puts[1..])
  }

  /** The batch handler: one database write, then one log entry per item. */
  ghost function BatchServed(crc: Checksum, s: Site, puts: seq<Event>): Site
    requires ArePuts(puts) && CanLogEach(crc, s.world, puts)
  {
    Site(ApplyWrites(s.primary, WritesOfAll(s.world.pid, puts)), LogEach(crc, s.world, puts))
  }

  ghost predicate IsStretch(crc: Checksum, ss: seq<Site>, events: seq<Event>) {
    |ss| == |events| + 1 &&
    forall i :: 0 <= i < |events| ==> Possible(ss[i], events[i]) && ss[i + 1] == Happens(crc, ss[i], events[i])
  }

  /** It takes the site where as many single puts take it, so the statements about runs cover it. */
  lemma {:induction false} BatchIsPuts(crc: Checksum, s: Site, puts: seq<Event>) returns (ss: seq<Site>)
    requires ArePuts(puts) && CanLogEach(crc, s.world, puts)
    ensures IsStretch(crc, ss, puts) && ss[0] == s && ss[|puts|] == BatchServed(crc, s, puts)
    decreases |puts|
  {
    hide Act, Enabled, PrimaryWrites, ApplyWrites;
    if puts == [] {
      ss := [s];
      NothingApplied(s.primary);
    } else {
      var next := Happens(crc, s, puts[0]);
      SamePartition(crc, s, puts[0]);
      var rest := BatchIsPuts(crc, next, puts[1..]);
      ss := [s] + rest;
      ApplyConcat(s.primary, PrimaryWrites(s.world.pid, puts[0].c), WritesOfAll(s.world.pid, puts[1..]));
      forall i | 0 <= i < |puts| ensures Possible(ss[i], puts[i]) && ss[i + 1] == Happens(crc, ss[i], puts[i]) {
        if i > 0 {
          assert puts[i] == puts[1..][i - 1] && ss[i] == rest[i - 1] && ss[i + 1] == rest[i];
        }
      }
    }
  }

  lemma NothingApplied(db: Db)
    ensures ApplyWrites(db, []) == db
  {
  }

  lemma SamePartition(crc: Checksum, s: Site, e: Event)
    requires Possible(s, e) && !e.Acts?
    ensures Happens(crc, s, e).world.pid == s.world.pid
  {
  }

  function Worlds(ss: seq<Site>): (ws: seq<World>)
    ensures |ws| == |ss| && forall i :: 0 <= i < |ss| ==> ws[i] == ss[i].world
  {
    seq(|ss|, i requires 0 <= i < |ss| => ss[i].world)
  }

  function Actions(events: seq<Event>): (actions: seq<Action>)
    ensures |actions| == |events| && forall i :: 0 <= i < |events| ==> actions[i] == ActionOf(events[i])
  {
    seq(|events|, i requires 0 <= i < |events| => ActionOf(events[i]))
  }

  /** Log and replica of a site go through a shipping run. */
  lemma SiteRunShips(crc: Checksum, ss: seq<Site>, events: seq<Event>)
    requires IsSiteRun(crc, ss, events)
    ensures IsShippingRun(crc, Worlds(ss), Actions(events))
  {
    hide Act, Fresh, Enabled, PrimaryWrites, ApplyWrites;
    forall i | 0 <= i < |events|
      ensures ActionOf(events[i]).Logs? ==> Enabled(ss[i].world.log, ActionOf(events[i]).step)
      ensures ss[i + 1].world == Act(crc, ss[i].world, ActionOf(events[i]))
    {
      assert Possible(ss[i], events[i]) && ss[i + 1] == Happens(crc, ss[i], events[i]);
      if events[i].ServesUnlogged? {
        AlwaysEnabled(ss[i].world.log);
      }
    }
  }

  lemma AlwaysEnabled(l: Log)
    ensures Enabled(l, AppendFailed)
  {
  }

  /**
   * Over every run in which nothing is lost between database and log and no refusal is answered:
   * a flushed log with nothing left to ship means that the replica's data is the primary's.
   */
  lemma DrainedReplicaEqualsPrimary(crc: Checksum, ss: seq<Site>, events: seq<Event>, n: nat)
    requires IsSiteRun(crc, ss, events) && n < |ss|
    requires forall i :: 0 <= i < n ==> Lossless(ss[i], events[i]) && !Rejected(crc, ss[i].world, ActionOf(events[i]))
    requires ss[n].world.log.buffered == [] && NextBatch(crc, ss[n].world) == []
    ensures ss[n].world.replica == ss[n].primary
  {
    hide Possible, Happens, IsShippingRun, Lossless, Rejected, ActionOf, NextBatch, Valid, Replay;
    PrimaryIsReplayOfLog(crc, ss, events, n);
    SiteRunShips(crc, ss, events);
    DrainedReplicaEqualsLog(crc, Worlds(ss), Actions(events), n);
    NothingBuffered(crc, ss[n].world.log);
  }

  lemma NothingBuffered(crc: Checksum, l: Log)
    requires l.buffered == []
    ensures OnDisk(crc, l) == Written(crc, l)
  {
    assert l.Full() == l.current.data;
  }

  // ---- A replica that is ready refuses nothing ----

  /** Every entry in the log can be applied by a replica in normal status. */
  ghost predicate AllDecode(crc: Checksum, w: World) {
    forall i :: 0 <= i < |Written(crc, w.log)| ==> Applicable(Normal, Written(crc, w.log)[i])
  }

  lemma LoggedDecodes(l: Log, pid: u32, c: Command, timestamp: nat, num: nat)
    requires c.FieldsCommand? ==> WellFormed(c.fb) && c.fb.partitionId == pid
    ensures var step := LogStep(c, timestamp, num);
            Applicable(Normal, NewEntry(l, timestamp, step.cmdType, step.key, step.value))
  {
    hide DecodeFieldBatch, Versioned;
    if c.FieldsCommand? {
      VersionedRoundTrip(c.fb);
    }
  }

  lemma EventKeepsDecoding(crc: Checksum, s: Site, e: Event)
    requires Valid(crc, s.world.log) && Possible(s, e) && AllDecode(crc, s.world)
    ensures AllDecode(crc, Happens(crc, s, e).world)
  {
    hide Valid, Written, Replay, OnDisk, ApplyWrites, PrimaryWrites, NextBatch, AppliedCount, Applicable;
    var l := s.world.log;
    match e {
      case Serves(c, timestamp, num) =>
        AppendWrites(crc, l, LogStep(c, timestamp, num));
        LoggedDecodes(l, s.world.pid, c, timestamp, num);
      case ServesUnlogged(_) => FailureWritesNothing(crc, l);
      case Acts(action) =>
        if !action.Logs? {
          ActionKeepsOthers(crc, s, action);
        } else if action.step.Flush? {
          FlushKeeps(crc, l, action.step.handed);
        } else {
          RestartLosesNothing(crc, l, action.step.survived, action.step.num);
        }
    }
  }

  lemma {:induction false} RunDecodes(crc: Checksum, ss: seq<Site>, events: seq<Event>, n: nat)
    requires IsSiteRun(crc, ss, events) && n < |ss|
    ensures Valid(crc, ss[n].world.log) && AllDecode(crc, ss[n].world)
  {
    hide Valid, AllDecode, Possible, Happens;
    LogCountsHandlers(crc, ss, events, n);
    if n == 0 {
      StartDecodes(crc, ss[0]);
    } else {
      RunDecodes(crc, ss, events, n - 1);
      assert ss[n - 1 + 1] == Happens(crc, ss[n - 1], events[n - 1]);
      EventKeepsDecoding(crc, ss[n - 1], events[n - 1]);
    }
  }

  lemma StartDecodes(crc: Checksum, s: Site)
    requires s.world == Start(crc, s.world.pid, s.primary, s.world.held, s.world.status, s.world.log.current.num)
    ensures AllDecode(crc, s.world)
  {
    FreshIsEmpty(crc, s.world.log.current.num);
  }

  lemma BatchApplies(crc: Checksum, w: World)
    requires Valid(crc, w.log) && AllDecode(crc, w) && w.held && w.status == Normal
    ensures AppliedCount(w.pid, w.held, w.status, NextBatch(crc, w)) == |NextBatch(crc, w)|
  {
    hide Valid, OnDisk, Written, NextBatch, AppliedCount, Applicable, CountTo;
    var batch, es := NextBatch(crc, w), OnDisk(crc, w.log);
    BatchPosition(crc, w);
    OnDiskAscends(crc, w.log);
    forall i | 0 <= i < |batch| ensures Applicable(Normal, batch[i]) {
      var k := CountTo(es, w.cursor) + i;
      assert batch[i] == es[k] == Written(crc, w.log)[k];
    }
    AppliedIffApplicable(w.pid, w.held, w.status, batch);
  }

  /** The replica's node holds the partition in normal status whenever something is shipped. */
  predicate ReadyUpTo(ss: seq<Site>, events: seq<Event>, n: nat)
    requires n <= |events| <= |ss|
  {
    forall i :: 0 <= i < n && ActionOf(events[i]).Ships? ==> ss[i].world.held && ss[i].world.status == Normal
  }

  /** Then no request is ever refused. */
  lemma ReadyIsNeverRejected(crc: Checksum, ss: seq<Site>, events: seq<Event>, n: nat, i: nat)
    requires IsSiteRun(crc, ss, events) && i < n <= |events| && ReadyUpTo(ss, events, n)
    ensures !Rejected(crc, ss[i].world, ActionOf(events[i]))
  {
    hide Valid, AllDecode, IsSiteRun, NextBatch, AppliedCount;
    SiteRunLength(crc, ss, events);
    RunDecodes(crc, ss, events, i);
    if ActionOf(events[i]).Ships? {
      BatchApplies(crc, ss[i].world);
    }
  }

  lemma SiteRunLength(crc: Checksum, ss: seq<Site>, events: seq<Event>)
    requires IsSiteRun(crc, ss, events)
    ensures |ss| == |events| + 1
  {
  }

  /**
   * Over every run in which nothing is lost between database and log and the replica is ready at
   * each shipment: a flushed log with nothing left to ship means equal data.
   */
  lemma ReadyReplicaEqualsPrimary(crc: Checksum, ss: seq<Site>, events: seq<Event>, n: nat)
    requires IsSiteRun(crc, ss, events) && n < |ss| && LostNothing(ss, events, n) && ReadyUpTo(ss, events, n)
    requires ss[n].world.log.buffered == [] && NextBatch(crc, ss[n].world) == []
    ensures ss[n].world.replica == ss[n].primary
  {
    hide Lossless, Rejected, NextBatch, Possible, Happens;
    forall i | 0 <= i < n ensures !Rejected(crc, ss[i].world, ActionOf(events[i])) {
      ReadyIsNeverRejected(crc, ss, events, n, i);
    }
    DrainedReplicaEqualsPrimary(crc, ss, events, n);
  }
}
