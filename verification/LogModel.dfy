/**
 * The command log as a value: numbered files, the bytes still in the write buffer, the
 * sequence counter and the sequence-to-position index, with every step that changes them.
 */
module LogModel {
  import opened Bytes
  import opened CommandCodec

  const LOG_FILE_MAX_SIZE: nat := 64 * 1024 * 1024

  datatype LogFile = LogFile(num: nat, data: Bytes)
  datatype Position = Position(fileNum: nat, offset: nat)

  /** `current` is the file open for writing; `buffered` has been written but not yet handed to it. */
  datatype Log = Log(closed: seq<LogFile>, current: LogFile, buffered: Bytes,
                     currentSize: nat, currentSeq: nat, index: map<nat, Position>)
  {
    /** The directory, in name order. */
    function Files(): seq<LogFile> {
      closed + [current]
    }

    /** The current file's bytes once the buffer is flushed. */
    function Full(): Bytes {
      current.data + buffered
    }
  }

  function Last<T>(s: seq<T>): T
    requires s != []
  {
    s[|s| - 1]
  }

  function Init<T>(s: seq<T>): seq<T>
    requires s != []
  {
    s[..|s| - 1]
  }

  /** All entries a scan of the files finds, in file order. */
  function Entries(crc: Checksum, files: seq<LogFile>): seq<Entry> {
    if files == [] then [] else Entries(crc, Init(files)) + DecodeAll(crc, Last(files).data)
  }

  /** The entries a scan of the directory finds now. */
  function OnDisk(crc: Checksum, l: Log): seq<Entry> {
    Entries(crc, l.closed) + DecodeAll(crc, l.current.data)
  }

  /** The entries a scan would find with the buffer flushed: everything appended and not lost. */
  function Written(crc: Checksum, l: Log): seq<Entry> {
    Entries(crc, l.closed) + DecodeAll(crc, l.Full())
  }

  /** Where each entry of one file starts. */
  function FileIndex(num: nat, es: seq<Entry>): map<nat, Position> {
    if es == [] then map[]
    else FileIndex(num, Init(es))[Last(es).sequence := Position(num, SizeAll(Init(es)))]
  }

  function IndexOf(crc: Checksum, files: seq<LogFile>): map<nat, Position> {
    if files == [] then map[]
    else IndexOf(crc, Init(files)) + FileIndex(Last(files).num, DecodeAll(crc, Last(files).data))
  }

  /** The index of everything written. */
  function WrittenIndex(crc: Checksum, l: Log): map<nat, Position> {
    IndexOf(crc, l.closed) + FileIndex(l.current.num, DecodeAll(crc, l.Full()))
  }

  function MaxSequence(es: seq<Entry>): nat {
    if es == [] then 0
    else if Last(es).sequence > MaxSequence(Init(es)) then Last(es).sequence
    else MaxSequence(Init(es))
  }

  predicate Ascending(es: seq<Entry>) {
    && (forall i, j :: 0 <= i < j < |es| ==> es[i].sequence < es[j].sequence)
    && (forall i :: 0 <= i < |es| ==> 1 <= es[i].sequence)
  }

  predicate NumbersAscend(files: seq<LogFile>) {
    forall i, j :: 0 <= i < j < |files| ==> files[i].num < files[j].num
  }

  /** What every step keeps. */
  ghost predicate Valid(crc: Checksum, l: Log) {
    && NumbersAscend(l.Files())
    && l.currentSize == |l.Full()|
    && Whole(crc, l.Full())
    && Ascending(Written(crc, l))
    && MaxSequence(Written(crc, l)) <= l.currentSeq
    && l.index == WrittenIndex(crc, l)
  }

  // ---- Steps ----

  /** The entry `Append` builds: lengths are taken from the slices, the clock is an input. */
  function NewEntry(l: Log, timestamp: nat, cmdType: byte, key: Bytes, value: Bytes): Entry {
    Entry(l.currentSeq + 1, timestamp, cmdType, key, value)
  }

  /** `rotateLogFile`: flush, close, open file `num`. */
  function Rotated(l: Log, num: nat): Log {
    l.(closed := l.closed + [LogFile(l.current.num, l.Full())], current := LogFile(num, []), buffered := [],
       currentSize := 0)
  }

  function ReadyFor(l: Log, e: Entry, num: nat): Log {
    if l.currentSize + Size(e) > LOG_FILE_MAX_SIZE then Rotated(l, num) else l
  }

  /** The buffer hands its first `handed` bytes to the file; `Sync` hands over all of them. */
  function Flushed(l: Log, handed: nat): Log
    requires handed <= |l.buffered|
  {
    l.(current := LogFile(l.current.num, l.current.data + l.buffered[..handed]), buffered := l.buffered[handed..])
  }

  /** `e` goes to the write buffer and into the index. */
  function Buffered(crc: Checksum, l: Log, e: Entry): Log {
    Log(l.closed, l.current, l.buffered + Encoding(crc, e), l.currentSize + Size(e), e.sequence,
        l.index[e.sequence := Position(l.current.num, l.currentSize)])
  }

  /** What `NewCommandLog` builds from the files it finds: `recover`, then a new file. */
  function Recovered(crc: Checksum, files: seq<LogFile>, num: nat): Log {
    Log(files, LogFile(num, []), [], 0, MaxSequence(Entries(crc, files)), IndexOf(crc, files))
  }

  datatype Step =
    | Append(timestamp: nat, cmdType: byte, key: Bytes, value: Bytes, num: nat)
      // the rotation inside Append failed: its sequence is spent and nothing is written
    | AppendFailed
      // Sync, or bufio making room while an entry is written
    | Flush(handed: nat)
      // the process dies after `survived` more buffered bytes reached the file, and starts again
    | Restart(survived: nat, num: nat)

  ghost predicate Enabled(l: Log, step: Step) {
    match step
    case Append(timestamp, cmdType, key, value, num) =>
      Fits(NewEntry(l, timestamp, cmdType, key, value)) && l.current.num < num
    case AppendFailed => true
    case Flush(handed) => handed <= |l.buffered|
    case Restart(survived, num) => survived <= |l.buffered| && l.current.num < num
  }

  function Do(crc: Checksum, l: Log, step: Step): Log
    requires Enabled(l, step)
  {
    match step
    case Append(timestamp, cmdType, key, value, num) =>
      var e := NewEntry(l, timestamp, cmdType, key, value);
      Buffered(crc, ReadyFor(l, e, num), e)
    case AppendFailed => l.(currentSeq := l.currentSeq + 1)
    case Flush(handed) => Flushed(l, handed)
    case Restart(survived, num) => Recovered(crc, Flushed(l, survived).Files(), num)
  }

  /** An empty directory, opened. */
  function Fresh(crc: Checksum, num: nat): Log {
    Recovered(crc, [], num)
  }

  /** The states a log goes through, one step at a time. */
  ghost predicate IsRun(crc: Checksum, states: seq<Log>, steps: seq<Step>) {
    && |states| == |steps| + 1
    && states[0] == Fresh(crc, states[0].current.num)
    && forall i :: 0 <= i < |steps| ==> Enabled(states[i], steps[i]) && states[i + 1] == Do(crc, states[i], steps[i])
  }

  // ---- Sequences and indexes ----

  lemma {:induction false} MaxOfAscending(es: seq<Entry>)
    requires Ascending(es)
    ensures MaxSequence(es) == if es == [] then 0 else Last(es).sequence
  {
    if es != [] {
      MaxOfAscending(Init(es));
    }
  }

  lemma AscendingAppend(es: seq<Entry>, e: Entry)
    requires Ascending(es) && MaxSequence(es) < e.sequence
    ensures Ascending(es + [e]) && MaxSequence(es + [e]) == e.sequence
  {
    MaxOfAscending(es);
    hide Ascending, MaxSequence;
    AscendingSnoc(es, e);
    MaxOfAscending(es + [e]);
  }

  lemma AscendingSnoc(es: seq<Entry>, e: Entry)
    requires Ascending(es) && 1 <= e.sequence && (es != [] ==> Last(es).sequence < e.sequence)
    ensures Ascending(es + [e])
  {
    assert forall i :: 0 <= i < |es| ==> es[i].sequence <= Last(es).sequence;
  }

  lemma AscendingPrefix(kept: seq<Entry>, es: seq<Entry>)
    requires Ascending(es) && kept <= es
    ensures Ascending(kept) && MaxSequence(kept) <= MaxSequence(es)
  {
    MaxOfAscending(es);
    MaxOfAscending(kept);
  }

  function Sequences(es: seq<Entry>): set<nat> {
    set i | 0 <= i < |es| :: es[i].sequence
  }

  lemma SequencesOfConcat(a: seq<Entry>, b: seq<Entry>)
    ensures Sequences(a + b) == Sequences(a) + Sequences(b)
  {
    var c := a + b;
    forall s | s in Sequences(a) ensures s in Sequences(c) {
      var i :| 0 <= i < |a| && a[i].sequence == s;
      assert c[i].sequence == s;
    }
    forall s | s in Sequences(b) ensures s in Sequences(c) {
      var i :| 0 <= i < |b| && b[i].sequence == s;
      assert c[|a| + i].sequence == s;
    }
  }

  lemma {:induction false} FileIndexKeys(num: nat, es: seq<Entry>)
    ensures FileIndex(num, es).Keys == Sequences(es)
  {
    if es != [] {
      FileIndexKeys(num, Init(es));
      SequencesOfConcat(Init(es), [Last(es)]);
      assert Init(es) + [Last(es)] == es;
      assert Sequences([Last(es)]) == {Last(es).sequence} by { assert [Last(es)][0] == Last(es); }
    }
  }

  lemma {:induction false} FileIndexAt(num: nat, es: seq<Entry>, j: nat)
    requires Ascending(es) && j < |es|
    ensures es[j].sequence in FileIndex(num, es)
    ensures FileIndex(num, es)[es[j].sequence] == Position(num, SizeAll(es[..j]))
  {
    if j < |es| - 1 {
      FileIndexAt(num, Init(es), j);
      assert Init(es)[..j] == es[..j];
    }
  }

  lemma {:induction false} IndexKeys(crc: Checksum, files: seq<LogFile>)
    ensures IndexOf(crc, files).Keys == Sequences(Entries(crc, files))
  {
    if files != [] {
      var es := DecodeAll(crc, Last(files).data);
      IndexKeys(crc, Init(files));
      FileIndexKeys(Last(files).num, es);
      SequencesOfConcat(Entries(crc, Init(files)), es);
    }
  }

  lemma WrittenIndexKeys(crc: Checksum, l: Log)
    ensures WrittenIndex(crc, l).Keys == Sequences(Written(crc, l))
  {
    IndexKeys(crc, l.closed);
    FileIndexKeys(l.current.num, DecodeAll(crc, l.Full()));
    SequencesOfConcat(Entries(crc, l.closed), DecodeAll(crc, l.Full()));
  }

  lemma EmptyFile(crc: Checksum)
    ensures DecodeAll(crc, []) == [] && Whole(crc, [])
  {
  }

  lemma EntriesOfNewFile(crc: Checksum, files: seq<LogFile>, f: LogFile)
    ensures Entries(crc, files + [f]) == Entries(crc, files) + DecodeAll(crc, f.data)
    ensures IndexOf(crc, files + [f]) == IndexOf(crc, files) + FileIndex(f.num, DecodeAll(crc, f.data))
  {
    assert Init(files + [f]) == files;
  }

  // ---- Every step keeps the log valid ----

  lemma FreshValid(crc: Checksum, num: nat)
    ensures Valid(crc, Fresh(crc, num))
  {
  }

  lemma FlushAll(crc: Checksum, l: Log)
    ensures OnDisk(crc, Flushed(l, |l.buffered|)) == Written(crc, l)
  {
    assert l.buffered[..|l.buffered|] == l.buffered;
  }

  lemma FlushKeeps(crc: Checksum, l: Log, handed: nat)
    requires handed <= |l.buffered|
    ensures Flushed(l, handed).Full() == l.Full()
    ensures Written(crc, Flushed(l, handed)) == Written(crc, l)
    ensures Valid(crc, l) ==> Valid(crc, Flushed(l, handed))
  {
    var d := l.current.data;
    assert d + l.buffered[..handed] + l.buffered[handed..] == d + l.buffered;
    if Valid(crc, l) {
      var n := Flushed(l, handed).Files();
      assert forall i :: 0 <= i < |n| ==> n[i].num == l.Files()[i].num;
    }
  }

  lemma NumbersExtend(closed: seq<LogFile>, current: LogFile, more: Bytes, num: nat)
    requires NumbersAscend(closed + [current]) && current.num < num
    ensures NumbersAscend(closed + [LogFile(current.num, more)] + [LogFile(num, [])])
  {
    var files, grown := closed + [current], closed + [LogFile(current.num, more)] + [LogFile(num, [])];
    assert files[|closed|].num < num;
    assert forall i :: 0 <= i < |files| ==> grown[i].num == files[i].num;
  }

  lemma RotateKeeps(crc: Checksum, l: Log, num: nat)
    requires Valid(crc, l) && l.current.num < num
    ensures Valid(crc, Rotated(l, num))
    ensures Written(crc, Rotated(l, num)) == Written(crc, l)
  {
    hide Whole, Ascending, NumbersAscend, Written, WrittenIndex, MaxSequence;
    EmptyFile(crc);
    RotatedContents(crc, l, num);
    NumbersExtend(l.closed, l.current, l.Full(), num);
  }

  lemma RotatedContents(crc: Checksum, l: Log, num: nat)
    ensures var r := Rotated(l, num);
            r.Full() == [] && Written(crc, r) == Written(crc, l) && WrittenIndex(crc, r) == WrittenIndex(crc, l)
  {
    hide DecodeAll, Entries, IndexOf;
    EmptyFile(crc);
    EntriesOfNewFile(crc, l.closed, LogFile(l.current.num, l.Full()));
    assert Rotated(l, num).Full() == [];
  }

  lemma BufferKeeps(crc: Checksum, l: Log, e: Entry)
    requires Valid(crc, l) && Fits(e) && l.currentSeq < e.sequence
    ensures Valid(crc, Buffered(crc, l, e))
    ensures Written(crc, Buffered(crc, l, e)) == Written(crc, l) + [e]
  {
    hide DecodeAll, Encoding, Ascending, NumbersAscend;
    var b, es := Buffered(crc, l, e), DecodeAll(crc, l.Full());
    assert b.Full() == l.Full() + Encoding(crc, e);
    DecodeAllAppend(crc, l.Full(), e);
    assert Written(crc, b) == Written(crc, l) + [e];
    AscendingAppend(Written(crc, l), e);
    FileIndexSnoc(IndexOf(crc, l.closed), l.current.num, es, e);
  }

  lemma FileIndexSnoc(before: map<nat, Position>, num: nat, es: seq<Entry>, e: Entry)
    ensures before + FileIndex(num, es + [e]) == (before + FileIndex(num, es))[e.sequence := Position(num, SizeAll(es))]
  {
    assert Init(es + [e]) == es;
  }

  /** Cut at any byte of the unflushed tail, the current file keeps a prefix of its entries. */
  lemma FlushExtends(crc: Checksum, l: Log, handed: nat)
    requires handed <= |l.buffered|
    ensures OnDisk(crc, l) <= OnDisk(crc, Flushed(l, handed)) <= Written(crc, l)
  {
    hide DecodeAll;
    var more := l.current.data + l.buffered[..handed];
    DecodeAllCut(crc, more, |l.current.data|);
    assert more[..|l.current.data|] == l.current.data;
    DecodeAllCut(crc, l.Full(), |more|);
    assert l.Full()[..|more|] == more;
  }

  /** Recovery sees what is on disk, and opens an empty file after it. */
  lemma RecoveredView(crc: Checksum, f: Log, num: nat)
    ensures var r := Recovered(crc, f.Files(), num);
            && r.Full() == [] && Whole(crc, r.Full())
            && OnDisk(crc, r) == Written(crc, r) == OnDisk(crc, f)
            && r.currentSeq == MaxSequence(Written(crc, r))
            && r.index == WrittenIndex(crc, r)
  {
    hide DecodeAll, Whole;
    EmptyFile(crc);
    var r := Recovered(crc, f.Files(), num);
    assert r.Full() == [];
    EntriesOfNewFile(crc, f.closed, f.current);
    assert Written(crc, r) == Entries(crc, f.Files()) + [];
    assert WrittenIndex(crc, r) == r.index + map[];
  }

  lemma RestartKeeps(crc: Checksum, l: Log, survived: nat, num: nat)
    requires Valid(crc, l) && survived <= |l.buffered| && l.current.num < num
    ensures Valid(crc, Recovered(crc, Flushed(l, survived).Files(), num))
    ensures OnDisk(crc, Recovered(crc, Flushed(l, survived).Files(), num)) == OnDisk(crc, Flushed(l, survived))
    ensures Written(crc, Recovered(crc, Flushed(l, survived).Files(), num)) == OnDisk(crc, Flushed(l, survived))
  {
    hide DecodeAll, Whole, Ascending, NumbersAscend, Entries, IndexOf, OnDisk, Written, WrittenIndex, MaxSequence;
    var f := Flushed(l, survived);
    RecoveredView(crc, f, num);
    FlushExtends(crc, l, survived);
    AscendingPrefix(OnDisk(crc, f), Written(crc, l));
    NumbersExtend(l.closed, l.current, f.current.data, num);
  }

  /** Every step keeps the log valid and never disturbs what a scan of the files already finds. */
  lemma StepKeeps(crc: Checksum, l: Log, step: Step)
    requires Valid(crc, l) && Enabled(l, step)
    ensures Valid(crc, Do(crc, l, step))
    ensures OnDisk(crc, l) <= OnDisk(crc, Do(crc, l, step))
  {
    hide DecodeAll, Ascending, NumbersAscend, Encoding;
    match step {
      case Append(timestamp, cmdType, key, value, num) =>
        var e := NewEntry(l, timestamp, cmdType, key, value);
        if l.currentSize + Size(e) > LOG_FILE_MAX_SIZE {
          RotateKeeps(crc, l, num);
          RotateExtends(crc, l, num);
        }
        BufferKeeps(crc, ReadyFor(l, e, num), e);
      case AppendFailed =>
      case Flush(handed) =>
        FlushKeeps(crc, l, handed);
        FlushExtends(crc, l, handed);
      case Restart(survived, num) =>
        RestartKeeps(crc, l, survived, num);
        FlushExtends(crc, l, survived);
    }
  }

  lemma RotateExtends(crc: Checksum, l: Log, num: nat)
    ensures OnDisk(crc, l) <= OnDisk(crc, Rotated(l, num))
  {
    EntriesOfNewFile(crc, l.closed, LogFile(l.current.num, l.Full()));
    FlushExtends(crc, l, |l.buffered|);
    assert l.buffered[..|l.buffered|] == l.buffered;
  }
}
