/** What holds of the command log over whole runs: recovery after a crash at any byte, and stable reads. */
module LogTheorems {
  import opened Common
  import opened CommandCodec
  import opened LogModel

  /** The entries at or past a sequence number, in the order found. */
  function From(es: seq<Entry>, fromSeq: nat): seq<Entry> {
    if es == [] then []
    else (if es[0].sequence >= fromSeq then [es[0]] else []) + From(es[1..], fromSeq)
  }

  function Take<T>(s: seq<T>, limit: nat): seq<T> {
    if |s| <= limit then s else s[..limit]
  }

  /** What a read means: the first `limit` entries found on disk at or past `fromSeq`. */
  function Read(crc: Checksum, l: Log, fromSeq: nat, limit: nat): seq<Entry> {
    Take(From(OnDisk(crc, l), fromSeq), limit)
  }

  lemma FromStep(es: seq<Entry>, fromSeq: nat)
    requires es != []
    ensures From(es, fromSeq) == (if es[0].sequence >= fromSeq then [es[0]] else []) + From(es[1..], fromSeq)
  {
  }

  lemma {:induction false} FromConcat(a: seq<Entry>, b: seq<Entry>, fromSeq: nat)
    ensures From(a + b, fromSeq) == From(a, fromSeq) + From(b, fromSeq)
  {
    if a == [] {
      assert a + b == b;
    } else {
      hide From;
      FromConcat(a[1..], b, fromSeq);
      FromStep(a, fromSeq);
      FromStep(a + b, fromSeq);
      assert (a + b)[1..] == a[1..] + b;
      Assoc(if a[0].sequence >= fromSeq then [a[0]] else [], From(a[1..], fromSeq), From(b, fromSeq));
    }
  }

  lemma {:induction false} FromNone(es: seq<Entry>, fromSeq: nat)
    requires forall i :: 0 <= i < |es| ==> es[i].sequence < fromSeq
    ensures From(es, fromSeq) == []
  {
    if es != [] {
      FromNone(es[1..], fromSeq);
    }
  }

  lemma {:induction false} FromAll(es: seq<Entry>, fromSeq: nat)
    requires forall i :: 0 <= i < |es| ==> es[i].sequence >= fromSeq
    ensures From(es, fromSeq) == es
  {
    if es != [] {
      FromAll(es[1..], fromSeq);
    }
  }

  lemma AscendingAt(es: seq<Entry>, i: nat, j: nat)
    requires Ascending(es) && i <= j < |es|
    ensures es[i].sequence <= es[j].sequence
  {
  }

  lemma AscendingBelow(es: seq<Entry>, i: nat, j: nat)
    requires Ascending(es) && i < j < |es|
    ensures es[i].sequence < es[j].sequence
  {
  }

  /** On ascending entries a read starts where everything before is too small. */
  lemma {:induction false} FromSplit(es: seq<Entry>, k: nat, fromSeq: nat)
    requires Ascending(es) && k <= |es|
    requires k > 0 ==> es[k - 1].sequence < fromSeq
    requires k < |es| ==> fromSeq <= es[k].sequence
    ensures From(es, fromSeq) == es[k..]
  {
    if k == 0 {
      FromAll(es, fromSeq);
    } else {
      hide From;
      FromStep(es, fromSeq);
      FromSplit(es[1..], k - 1, fromSeq);
      assert es[1..][k - 1..] == es[k..];
      AscendingAt(es, 0, k - 1);
    }
  }

  // ---- Runs ----

  lemma {:induction false} RunKeeps(crc: Checksum, states: seq<Log>, steps: seq<Step>, i: nat, j: nat)
    requires IsRun(crc, states, steps) && i <= j < |states|
    ensures Valid(crc, states[j])
    ensures OnDisk(crc, states[i]) <= OnDisk(crc, states[j])
    decreases j
  {
    hide OnDisk, Valid, Do, Enabled;
    if j == 0 {
      FreshValid(crc, states[0].current.num);
    } else if i < j {
      RunKeeps(crc, states, steps, i, j - 1);
      StepKeeps(crc, states[j - 1], steps[j - 1]);
    } else {
      RunKeeps(crc, states, steps, j - 1, j - 1);
      StepKeeps(crc, states[j - 1], steps[j - 1]);
    }
  }

  /**
   * An entry once returned by a read is returned unchanged by every later read that asks
   * for its sequence number, whatever appends, flushes and crashes come in between.
   */
  lemma ReadsAreStable(crc: Checksum, states: seq<Log>, steps: seq<Step>, i: nat, j: nat,
                       fromSeq: nat, limit: nat, e: Entry)
    requires IsRun(crc, states, steps) && i <= j < |states|
    requires e in Read(crc, states[i], fromSeq, limit)
    ensures Read(crc, states[j], e.sequence, 1) == [e]
  {
    hide OnDisk, Valid, IsRun, Ascending;
    RunKeeps(crc, states, steps, i, j);
    FromMembers(OnDisk(crc, states[i]), fromSeq, e);
    var es := OnDisk(crc, states[j]);
    var k :| 0 <= k < |OnDisk(crc, states[i])| && OnDisk(crc, states[i])[k] == e;
    assert es[k] == e;
    OnDiskAscends(crc, states[j]);
    if k > 0 {
      AscendingBelow(es, k - 1, k);
    }
    FromSplit(es, k, e.sequence);
  }

  lemma {:induction false} FromMembers(es: seq<Entry>, fromSeq: nat, e: Entry)
    requires e in From(es, fromSeq)
    ensures e in es && fromSeq <= e.sequence
  {
    if e in From(es[1..], fromSeq) {
      FromMembers(es[1..], fromSeq, e);
    }
  }

  lemma OnDiskAscends(crc: Checksum, l: Log)
    requires Valid(crc, l)
    ensures OnDisk(crc, l) <= Written(crc, l)
    ensures Ascending(OnDisk(crc, l)) && MaxSequence(OnDisk(crc, l)) <= l.currentSeq
  {
    FlushExtends(crc, l, 0);
    AscendingPrefix(OnDisk(crc, l), Written(crc, l));
  }

  // ---- Recovery ----

  lemma PrefixSequences(kept: seq<Entry>, es: seq<Entry>)
    requires Ascending(es) && kept <= es
    ensures Sequences(kept) == set s | s in Sequences(es) && s <= MaxSequence(kept)
  {
    AscendingPrefix(kept, es);
    MaxOfAscending(kept);
    forall s | s in Sequences(kept) ensures s in Sequences(es) && s <= MaxSequence(kept) {
      var j :| 0 <= j < |kept| && kept[j].sequence == s;
      assert es[j].sequence == s;
    }
    forall s | s in Sequences(es) && s <= MaxSequence(kept) ensures s in Sequences(kept) {
      var j :| 0 <= j < |es| && es[j].sequence == s;
      assert kept != [];
      assert es[|kept| - 1] == Last(kept);
      assert kept[j] == es[j];
    }
  }

  /** Cutting the last file short leaves the positions of what survives as they were. */
  lemma IndexOfPrefix(before: map<nat, Position>, a: seq<Entry>, num: nat, kept: seq<Entry>, es: seq<Entry>)
    requires Ascending(a + es) && kept <= es && before.Keys == Sequences(a)
    ensures var whole := before + FileIndex(num, es);
            before + FileIndex(num, kept) == map s | s in whole && s <= MaxSequence(a + kept) :: whole[s]
  {
    hide FileIndex, Sequences, Ascending, MaxSequence;
    var whole, part := before + FileIndex(num, es), before + FileIndex(num, kept);
    FileIndexKeys(num, es);
    FileIndexKeys(num, kept);
    SequencesOfConcat(a, es);
    SequencesOfConcat(a, kept);
    PrefixSequences(a + kept, a + es);
    assert part.Keys == set s | s in whole.Keys && s <= MaxSequence(a + kept);
    AscendingTail(a, es);
    forall s | s in part ensures part[s] == whole[s] {
      if s in Sequences(kept) {
        FileIndexSame(num, kept, es, s);
      } else {
        SequencesDisjoint(a, es, s);
      }
    }
  }

  lemma FileIndexSame(num: nat, kept: seq<Entry>, es: seq<Entry>, s: nat)
    requires Ascending(es) && kept <= es && s in Sequences(kept)
    ensures s in FileIndex(num, kept) && s in FileIndex(num, es)
    ensures FileIndex(num, kept)[s] == FileIndex(num, es)[s]
  {
    AscendingPrefix(kept, es);
    var j :| 0 <= j < |kept| && kept[j].sequence == s;
    FileIndexAt(num, kept, j);
    FileIndexAt(num, es, j);
    assert kept[..j] == es[..j];
  }

  lemma AscendingTail(a: seq<Entry>, es: seq<Entry>)
    requires Ascending(a + es)
    ensures Ascending(es)
  {
    forall i | 0 <= i < |es| ensures es[i] == (a + es)[|a| + i] {
    }
  }

  lemma SequencesDisjoint(a: seq<Entry>, b: seq<Entry>, s: nat)
    requires Ascending(a + b) && s in Sequences(a)
    ensures s !in Sequences(b)
  {
    var i :| 0 <= i < |a| && a[i].sequence == s;
    forall j | 0 <= j < |b| ensures b[j].sequence != s {
      assert (a + b)[i].sequence < (a + b)[|a| + j].sequence;
    }
  }

  lemma RestartEntries(crc: Checksum, l: Log, survived: nat, num: nat) returns (m: nat)
    requires Valid(crc, l) && Enabled(l, Restart(survived, num))
    ensures var r := Do(crc, l, Restart(survived, num));
            var closed, full := Entries(crc, l.closed), DecodeAll(crc, l.Full());
            && m <= |full|
            && OnDisk(crc, r) == Written(crc, r) == closed + full[..m] <= Written(crc, l)
            && DecodeAll(crc, Flushed(l, survived).current.data) == full[..m]
            && KeepsExactly(full, m, |l.current.data| + survived)
  {
    hide DecodeAll, Entries;
    var f := Flushed(l, survived);
    RecoveredView(crc, f, num);
    var full, kept := DecodeAll(crc, l.Full()), DecodeAll(crc, f.current.data);
    assert l.Full()[..|f.current.data|] == f.current.data;
    DecodeAllCut(crc, l.Full(), |f.current.data|);
    m := |kept|;
    assert kept == full[..m];
  }

  lemma RestartCounter(crc: Checksum, l: Log, survived: nat, num: nat)
    requires Valid(crc, l) && Enabled(l, Restart(survived, num))
    ensures var r := Do(crc, l, Restart(survived, num));
            r.currentSeq == if OnDisk(crc, r) == [] then 0 else Last(OnDisk(crc, r)).sequence
  {
    hide OnDisk, Written;
    RecoveredView(crc, Flushed(l, survived), num);
    RestartKeeps(crc, l, survived, num);
    MaxOfAscending(OnDisk(crc, Flushed(l, survived)));
  }

  lemma RestartIndex(crc: Checksum, l: Log, survived: nat, num: nat)
    requires Valid(crc, l) && Enabled(l, Restart(survived, num))
    ensures var r := Do(crc, l, Restart(survived, num));
            r.index == map s | s in l.index && s <= r.currentSeq :: l.index[s]
  {
    hide DecodeAll, Entries, IndexOf, FileIndex, Ascending;
    var f := Flushed(l, survived);
    var m := RestartEntries(crc, l, survived, num);
    EntriesOfNewFile(crc, f.closed, f.current);
    IndexKeys(crc, l.closed);
    var full := DecodeAll(crc, l.Full());
    IndexOfPrefix(IndexOf(crc, l.closed), Entries(crc, l.closed), l.current.num, full[..m], full);
  }

  /**
   * A crash that lets `survived` more bytes of the buffer reach the file, then recovery:
   * of the current file exactly the entries whose whole encoding got there come back, the
   * index is the one `Append` had built cut down to them, and numbering resumes after the last.
   */
  lemma RestartExact(crc: Checksum, l: Log, survived: nat, num: nat)
    requires Valid(crc, l) && Enabled(l, Restart(survived, num))
    ensures var r := Do(crc, l, Restart(survived, num));
            var closed, full := Entries(crc, l.closed), DecodeAll(crc, l.Full());
            && Valid(crc, r)
            && OnDisk(crc, r) == Written(crc, r)
            && (exists m :: 0 <= m <= |full| && OnDisk(crc, r) == closed + full[..m]
                            && KeepsExactly(full, m, |l.current.data| + survived))
            && r.currentSeq == (if OnDisk(crc, r) == [] then 0 else Last(OnDisk(crc, r)).sequence)
            && r.index == map s | s in l.index && s <= r.currentSeq :: l.index[s]
  {
    hide Valid, OnDisk, Written, Entries, DecodeAll, KeepsExactly;
    RestartKeeps(crc, l, survived, num);
    var m := RestartEntries(crc, l, survived, num);
    RestartCounter(crc, l, survived, num);
    RestartIndex(crc, l, survived, num);
  }

  /** A crash costs no entry exactly when nothing stays behind in the buffer. */
  lemma RestartLosesNothing(crc: Checksum, l: Log, survived: nat, num: nat)
    requires Valid(crc, l) && Enabled(l, Restart(survived, num))
    ensures var r := Do(crc, l, Restart(survived, num));
            && Written(crc, r) <= Written(crc, l)
            && (|Written(crc, r)| == |Written(crc, l)| <==> survived == |l.buffered|)
  {
    hide OnDisk, Entries, DecodeAll, Do, Ascending, MaxSequence, NumbersAscend, WrittenIndex;
    var m := RestartEntries(crc, l, survived, num);
    var full := DecodeAll(crc, l.Full());
    assert full[..|full|] == full;
    assert |full| <= m <==> SizeAll(full) <= |l.current.data| + survived;
  }

  /** The first `m` entries are exactly those lying wholly within the first `cut` bytes. */
  ghost predicate KeepsExactly(es: seq<Entry>, m: nat, cut: nat) {
    forall j :: 0 <= j <= |es| ==> (j <= m <==> SizeAll(es[..j]) <= cut)
  }

  // ---- Numbering ----

  /** Entries are numbered 1, 2, 3, ... and the counter stands at the last. */
  ghost predicate Consecutive(crc: Checksum, l: Log) {
    && l.currentSeq == |Written(crc, l)|
    && forall k :: 0 <= k < |Written(crc, l)| ==> Written(crc, l)[k].sequence == k + 1
  }

  /** Numbering has a gap only where an append failed while rotating. */
  lemma StepKeepsNumbering(crc: Checksum, l: Log, step: Step)
    requires Valid(crc, l) && Enabled(l, step) && Consecutive(crc, l)
    ensures Consecutive(crc, Do(crc, l, step)) <==> !step.AppendFailed?
  {
    hide Written, Valid;
    match step {
      case Append(timestamp, cmdType, key, value, num) =>
        AppendWrites(crc, l, step);
      case AppendFailed =>
        FailureWritesNothing(crc, l);
      case Flush(handed) =>
        FlushKeeps(crc, l, handed);
      case Restart(survived, num) =>
        RestartNumbering(crc, l, survived, num);
    }
  }

  lemma AppendWrites(crc: Checksum, l: Log, step: Step)
    requires Valid(crc, l) && Enabled(l, step) && step.Append?
    ensures var e := NewEntry(l, step.timestamp, step.cmdType, step.key, step.value);
            Written(crc, Do(crc, l, step)) == Written(crc, l) + [e] && Do(crc, l, step).currentSeq == e.sequence
  {
    hide Written, Valid, Encoding;
    var e := NewEntry(l, step.timestamp, step.cmdType, step.key, step.value);
    if l.currentSize + Size(e) > LOG_FILE_MAX_SIZE {
      RotateKeeps(crc, l, step.num);
    }
    BufferKeeps(crc, ReadyFor(l, e, step.num), e);
  }

  lemma FailureWritesNothing(crc: Checksum, l: Log)
    ensures Written(crc, Do(crc, l, AppendFailed)) == Written(crc, l)
  {
  }

  lemma RestartNumbering(crc: Checksum, l: Log, survived: nat, num: nat)
    requires Valid(crc, l) && Enabled(l, Restart(survived, num)) && Consecutive(crc, l)
    ensures Consecutive(crc, Do(crc, l, Restart(survived, num)))
  {
    hide Written, OnDisk, Valid, Entries, DecodeAll, KeepsExactly, Recovered, Flushed;
    var r := Do(crc, l, Restart(survived, num));
    var _ := RestartEntries(crc, l, survived, num);
    RestartCounter(crc, l, survived, num);
    PrefixNumbering(Written(crc, r), Written(crc, l));
  }

  lemma PrefixNumbering(kept: seq<Entry>, all: seq<Entry>)
    requires kept <= all && forall k :: 0 <= k < |all| ==> all[k].sequence == k + 1
    ensures forall k :: 0 <= k < |kept| ==> kept[k].sequence == k + 1
    ensures kept != [] ==> Last(kept).sequence == |kept|
  {
    forall k | 0 <= k < |kept| ensures kept[k] == all[k] {
    }
  }

  lemma {:induction false} RunNumbering(crc: Checksum, states: seq<Log>, steps: seq<Step>, j: nat)
    requires IsRun(crc, states, steps) && j < |states|
    requires forall i :: 0 <= i < j ==> !steps[i].AppendFailed?
    ensures Consecutive(crc, states[j])
  {
    hide Valid, Do, Enabled;
    if j > 0 {
      RunNumbering(crc, states, steps, j - 1);
      RunKeeps(crc, states, steps, j - 1, j - 1);
      StepKeepsNumbering(crc, states[j - 1], steps[j - 1]);
    } else {
      EmptyFile(crc);
      assert Fresh(crc, states[0].current.num).Full() == [];
    }
  }
}
