/** The command log as the object that serves appends, reads and recovery. */
module LogStore {
  import opened Bytes
  import opened Common
  import opened CommandCodec
  import opened LogModel
  import opened LogTheorems

  const LOG_BUFFER_SIZE: nat := 4 * 1024 * 1024

  // ---- What an indexed read starts from ----

  /** The directory as it would be with the buffer flushed. */
  function FullFiles(l: Log): seq<LogFile> {
    l.closed + [LogFile(l.current.num, l.Full())]
  }

  /** What is read from `pos` in file `i` to the end of the directory. */
  function TailFrom(crc: Checksum, files: seq<LogFile>, i: nat, offset: nat): seq<Entry>
    requires i < |files|
  {
    var data := files[i].data;
    DecodeAll(crc, if offset <= |data| then data[offset..] else []) + Entries(crc, files[i + 1..])
  }

  lemma {:induction false} EntriesConcat(crc: Checksum, a: seq<LogFile>, b: seq<LogFile>)
    ensures Entries(crc, a + b) == Entries(crc, a) + Entries(crc, b)
  {
    hide DecodeAll;
    if b == [] {
      assert a + b == a;
    } else {
      EntriesConcat(crc, a, Init(b));
      assert Init(a + b) == a + Init(b);
      Assoc(Entries(crc, a), Entries(crc, Init(b)), DecodeAll(crc, Last(b).data));
    }
  }

  lemma EntriesOne(crc: Checksum, f: LogFile)
    ensures Entries(crc, [f]) == DecodeAll(crc, f.data)
  {
    EntriesOfNewFile(crc, [], f);
    assert [] + [f] == [f];
  }

  lemma EntriesSplit(crc: Checksum, files: seq<LogFile>, i: nat)
    requires i < |files|
    ensures Entries(crc, files) == Entries(crc, files[..i]) + (DecodeAll(crc, files[i].data) + Entries(crc, files[i + 1..]))
    ensures Entries(crc, files[i..]) == DecodeAll(crc, files[i].data) + Entries(crc, files[i + 1..])
  {
    hide DecodeAll, Entries;
    assert files == files[..i] + files[i..];
    EntriesConcat(crc, files[..i], files[i..]);
    assert files[i..] == [files[i]] + files[i + 1..];
    EntriesConcat(crc, [files[i]], files[i + 1..]);
    EntriesOne(crc, files[i]);
  }

  lemma {:induction false} FileIndexLookup(num: nat, es: seq<Entry>, s: nat) returns (j: nat)
    requires s in FileIndex(num, es)
    ensures j < |es| && es[j].sequence == s && FileIndex(num, es)[s] == Position(num, SizeAll(es[..j]))
  {
    if Last(es).sequence == s {
      j := |es| - 1;
    } else {
      j := FileIndexLookup(num, Init(es), s);
      assert Init(es)[..j] == es[..j];
    }
  }

  lemma {:induction false} IndexLookup(crc: Checksum, files: seq<LogFile>, s: nat) returns (i: nat, j: nat)
    requires s in IndexOf(crc, files)
    ensures i < |files|
    ensures var es := DecodeAll(crc, files[i].data);
            j < |es| && es[j].sequence == s && IndexOf(crc, files)[s] == Position(files[i].num, SizeAll(es[..j]))
  {
    hide DecodeAll;
    if s in FileIndex(Last(files).num, DecodeAll(crc, Last(files).data)) {
      i := |files| - 1;
      j := FileIndexLookup(Last(files).num, DecodeAll(crc, Last(files).data), s);
    } else {
      i, j := IndexLookup(crc, Init(files), s);
    }
  }

  /** Reading one file from an indexed offset skips exactly the entries before it, flushed or not. */
  lemma TailOfFile(crc: Checksum, data: Bytes, more: Bytes, j: nat) returns (p: nat)
    requires j <= |DecodeAll(crc, data + more)|
    ensures var disk, offset := DecodeAll(crc, data), SizeAll(DecodeAll(crc, data + more)[..j]);
            && disk <= DecodeAll(crc, data + more)
            && p <= j && p <= |disk|
            && DecodeAll(crc, if offset <= |data| then data[offset..] else []) == disk[p..]
  {
    hide DecodeAll;
    var full, disk := DecodeAll(crc, data + more), DecodeAll(crc, data);
    DecodeAllCut(crc, data + more, |data|);
    assert (data + more)[..|data|] == data;
    if j <= |disk| {
      p := j;
      assert disk[..j] == full[..j];
      DecodeAllFrom(crc, data, j);
    } else {
      p := |disk|;
      EmptyFile(crc);
    }
  }

  /**
   * If `s` is the first indexed sequence at or past `fromSeq`, then reading from its position
   * finds everything a scan of the whole directory would.
   */
  lemma IndexedReadIsComplete(crc: Checksum, l: Log, fromSeq: nat, s: nat) returns (i: nat)
    requires Valid(crc, l) && s in l.index && fromSeq <= s
    requires forall t :: fromSeq <= t < s ==> t !in l.index
    ensures i < |l.Files()| && l.Files()[i].num == l.index[s].fileNum
    ensures From(TailFrom(crc, l.Files(), i, l.index[s].offset), fromSeq) == From(OnDisk(crc, l), fromSeq)
  {
    hide DecodeAll, From, Ascending, Entries, IndexOf, NumbersAscend, Whole;
    var files, full := l.Files(), FullFiles(l);
    EntriesOfNewFile(crc, l.closed, LogFile(l.current.num, l.Full()));
    EntriesOfNewFile(crc, l.closed, l.current);
    var j;
    i, j := IndexLookup(crc, full, s);
    var more := if i < |l.closed| then [] else l.buffered;
    assert full[i].data == files[i].data + more;
    var p := TailOfFile(crc, files[i].data, more, j);
    EntriesSplit(crc, files, i);
    EntriesSplit(crc, full, i);
    assert files[..i] == full[..i];
    SkippedAreSmall(crc, l, Entries(crc, full[..i]), DecodeAll(crc, full[i].data), Entries(crc, full[i + 1..]), j, p, fromSeq);
    SkipSmall(Entries(crc, files[..i]), DecodeAll(crc, files[i].data), Entries(crc, files[i + 1..]), p, fromSeq);
  }

  lemma SkipSmall(before: seq<Entry>, es: seq<Entry>, after: seq<Entry>, p: nat, fromSeq: nat)
    requires p <= |es|
    requires forall k :: 0 <= k < |before + es[..p]| ==> (before + es[..p])[k].sequence < fromSeq
    ensures From(before + (es + after), fromSeq) == From(es[p..] + after, fromSeq)
  {
    hide From;
    var skipped, tail := before + es[..p], es[p..] + after;
    FromNone(skipped, fromSeq);
    FromConcat(skipped, tail, fromSeq);
    assert es == es[..p] + es[p..];
    assert before + (es + after) == skipped + tail;
  }

  lemma SkippedAreSmall(crc: Checksum, l: Log, before: seq<Entry>, es: seq<Entry>, after: seq<Entry>,
                        j: nat, p: nat, fromSeq: nat)
    requires Valid(crc, l) && Written(crc, l) == before + (es + after) && p <= j < |es|
    requires forall t :: fromSeq <= t < es[j].sequence ==> t !in l.index
    ensures forall k :: 0 <= k < |before + es[..p]| ==> (before + es[..p])[k].sequence < fromSeq
  {
    var w, skipped := Written(crc, l), before + es[..p];
    WrittenIndexKeys(crc, l);
    forall k | 0 <= k < |skipped| ensures skipped[k].sequence < fromSeq {
      assert skipped[k] == w[k];
      assert w[|before| + j] == es[j];
      AscendingBelow(w, k, |before| + j);
      assert w[k].sequence in Sequences(w);
    }
  }

  // ---- The object ----

  lemma ScanStep(crc: Checksum, s: Bytes, e: Entry, fromSeq: nat)
    requires Decode(crc, s) == Some(e)
    ensures From(DecodeAll(crc, s), fromSeq) ==
            (if e.sequence >= fromSeq then [e] else []) + From(DecodeAll(crc, s[Size(e)..]), fromSeq)
  {
    hide Decode;
    assert DecodeAll(crc, s)[1..] == DecodeAll(crc, s[Size(e)..]);
  }

  lemma ScanEnd(crc: Checksum, s: Bytes, fromSeq: nat)
    requires Decode(crc, s).None?
    ensures From(DecodeAll(crc, s), fromSeq) == []
  {
  }

  /** The read loop of one open file: decode, keep what is wanted, stop at the limit or at a bad entry. */
  method ScanFile(crc: Checksum, r: Reader, fromSeq: nat, limit: nat, acc: seq<Entry>) returns (entries: seq<Entry>)
    requires |acc| <= limit
    modifies r
    ensures entries == Take(acc + From(DecodeAll(crc, old(r.Rest())), fromSeq), limit)
  {
    hide Decode, DecodeAll, From, Reader.Rest;
    entries := acc;
    ghost var all := acc + From(DecodeAll(crc, r.Rest()), fromSeq);
    while |entries| < limit
      invariant |entries| <= limit
      invariant entries + From(DecodeAll(crc, r.Rest()), fromSeq) == all
      decreases |r.Rest()|
    {
      ghost var s := r.Rest();
      var e := DecodeEntry(crc, r);
      if e.None? {
        ScanEnd(crc, s, fromSeq);
        return;
      }
      ScanStep(crc, s, e.value, fromSeq);
      if e.value.sequence >= fromSeq {
        Assoc(entries, [e.value], From(DecodeAll(crc, r.Rest()), fromSeq));
        entries := entries + [e.value];
      }
    }
  }

  class CommandLog {
    const crc: Checksum
    var closed: seq<LogFile>
    var current: LogFile
    var buffered: Bytes
    var currentSize: nat
    var currentSeq: nat
    var index: map<nat, Position>
    var isClosed: bool

    function View(): Log
      reads this
    {
      Log(closed, current, buffered, currentSize, currentSeq, index)
    }

    /** `NewCommandLog`: rebuild counter and index from the files found, then open a new file. */
    constructor (crc: Checksum, files: seq<LogFile>, num: nat)
      ensures this.crc == crc && View() == Recovered(crc, files, num) && !isClosed
    {
      this.crc := crc;
      closed, current, buffered, currentSize, isClosed := files, LogFile(num, []), [], 0, false;
      var maxSeq, found := Recover(crc, files);
      currentSeq, index := maxSeq, found;
    }

    /** `recover`: decode every file from its start, noting where each entry begins. */
    static method Recover(crc: Checksum, files: seq<LogFile>) returns (maxSeq: nat, found: map<nat, Position>)
      ensures maxSeq == MaxSequence(Entries(crc, files)) && found == IndexOf(crc, files)
    {
      maxSeq, found := 0, map[];
      for i := 0 to |files|
        invariant maxSeq == MaxSequence(Entries(crc, files[..i])) && found == IndexOf(crc, files[..i])
      {
        maxSeq, found := RecoverFile(crc, files[i], maxSeq, found, Entries(crc, files[..i]));
        EntriesOfNewFile(crc, files[..i], files[i]);
        assert files[..i + 1] == files[..i] + [files[i]];
      }
      assert files[..|files|] == files;
    }

    static method RecoverFile(crc: Checksum, file: LogFile, maxSoFar: nat, soFar: map<nat, Position>,
                              ghost before: seq<Entry>)
      returns (maxSeq: nat, found: map<nat, Position>)
      requires maxSoFar == MaxSequence(before)
      ensures maxSeq == MaxSequence(before + DecodeAll(crc, file.data))
      ensures found == soFar + FileIndex(file.num, DecodeAll(crc, file.data))
    {
      hide Decode, DecodeAll, MaxSequence, FileIndex, SizeAll, Size;
      var r := new Reader(file.data, 0);
      maxSeq, found := maxSoFar, soFar;
      var offset := 0;
      ghost var done: seq<Entry> := [];
      NothingYet(before, soFar, file.num);
      assert [] + DecodeAll(crc, r.Rest()) == DecodeAll(crc, file.data);
      hide Reader.Rest;
      while true
        invariant done + DecodeAll(crc, r.Rest()) == DecodeAll(crc, file.data)
        invariant offset == SizeAll(done)
        invariant maxSeq == MaxSequence(before + done) && found == soFar + FileIndex(file.num, done)
        decreases |r.Rest()|
      {
        ghost var s := r.Rest();
        var e := DecodeEntry(crc, r);
        if e.None? {
          NoMore(crc, s);
          assert done + [] == done;
          break;
        }
        DecodeAllStep(crc, s, e.value);
        Assoc(done, [e.value], DecodeAll(crc, r.Rest()));
        FileIndexSnoc(soFar, file.num, done, e.value);
        OneMore(before, done, e.value);
        found := found[e.value.sequence := Position(file.num, offset)];
        offset := offset + FRAME + |e.value.key| + |e.value.value|;
        maxSeq := if e.value.sequence > maxSeq then e.value.sequence else maxSeq;
        done := done + [e.value];
      }
    }

    /** `bufio.Writer.Write`: fill the buffer and flush while the data does not fit, large writes going straight through. */
    method WriteBuffered(data: Bytes)
      requires |buffered| <= LOG_BUFFER_SIZE
      modifies this`current, this`buffered
      ensures |buffered| <= LOG_BUFFER_SIZE
      ensures current.num == old(current.num) && old(current.data) <= current.data
      ensures current.data + buffered == old(current.data + buffered) + data
    {
      var p := data;
      while |p| > LOG_BUFFER_SIZE - |buffered|
        invariant |buffered| <= LOG_BUFFER_SIZE
        invariant current.num == old(current.num) && old(current.data) <= current.data
        invariant current.data + buffered + p == old(current.data + buffered) + data
        decreases |p|, |buffered|
      {
        if |buffered| == 0 {
          current := LogFile(current.num, current.data + p);
          p := [];
        } else {
          var n := LOG_BUFFER_SIZE - |buffered|;
          assert p == p[..n] + p[n..];
          current := LogFile(current.num, current.data + (buffered + p[..n]));
          buffered := [];
          p := p[n..];
        }
      }
      buffered := buffered + p;
    }

    method Rotate(num: nat)
      modifies this
      ensures View() == Rotated(old(View()), num) && isClosed == old(isClosed)
      ensures old(Valid(crc, View())) && old(current.num) < num ==>
                Valid(crc, View()) && OnDisk(crc, View()) == Written(crc, View()) == old(Written(crc, View()))
    {
      hide Valid, Written, OnDisk;
      if Valid(crc, View()) && current.num < num {
        RotateKeeps(crc, View(), num);
        RotatedOnDisk(crc, View(), num);
      }
      closed := closed + [LogFile(current.num, current.data + buffered)];
      current, buffered, currentSize := LogFile(num, []), [], 0;
    }

    /** A rotation that fails while flushing, after the buffer has handed over some bytes, or while syncing, after all. */
    method FailToRotate(bytes: nat) returns (ghost handed: nat)
      modifies this`current, this`buffered
      ensures handed <= |old(buffered)| && View() == Flushed(old(View()), handed)
    {
      var n := if bytes < |buffered| then bytes else |buffered|;
      current := LogFile(current.num, current.data + buffered[..n]);
      buffered := buffered[n..];
      return n;
    }

    /**
     * `Append`; `handed` is how much of what was pending reached the file on the way. When a
     * rotation is due and `fault` makes it fail, the sequence is spent and nothing is written.
     */
    method Append(timestamp: nat, cmdType: byte, key: Bytes, value: Bytes, num: nat, fault: Option<nat>)
      returns (seqNo: Option<nat>, ghost handed: nat)
      requires |buffered| <= LOG_BUFFER_SIZE
      modifies this
      ensures |buffered| <= LOG_BUFFER_SIZE && isClosed == old(isClosed)
      ensures old(isClosed) ==> seqNo == None && View() == old(View())
      ensures !old(isClosed) ==>
                var e := NewEntry(old(View()), timestamp, cmdType, key, value);
                var next := Buffered(crc, ReadyFor(old(View()), e, num), e);
                if fault.Some? && old(currentSize) + Size(e) > LOG_FILE_MAX_SIZE then
                  && seqNo == None && handed <= |old(buffered)|
                  && View() == Do(crc, Flushed(old(View()), handed), AppendFailed)
                else
                  seqNo == Some(e.sequence) && handed <= |next.buffered| && View() == Flushed(next, handed)
      ensures seqNo.Some? ==>
                var size := 29 + |key| + |value|;
                && seqNo.value == old(currentSeq) + 1 == currentSeq
                && (if old(currentSize) + size > LOG_FILE_MAX_SIZE then
                      |closed| == |old(closed)| + 1 && current.num == num && currentSize == size
                    else closed == old(closed) && current.num == old(current.num) && currentSize == old(currentSize) + size)
                && currentSeq in index && index[currentSeq] == Position(current.num, currentSize - size)
    {
      hide Encoding, Valid, Written, OnDisk;
      handed := 0;
      if isClosed {
        return None, 0;
      }
      currentSeq := currentSeq + 1;
      var e := Entry(currentSeq, timestamp, cmdType, key, value);
      var data := EncodeEntry(crc, e);
      if currentSize + data.Length > LOG_FILE_MAX_SIZE {
        if fault.Some? {
          handed := FailToRotate(fault.value);
          return None, handed;
        }
        Rotate(num);
      }
      ghost var ready := ReadyFor(old(View()), e, num);
      var offset := currentSize;
      var encoded := data[..];
      WriteBuffered(encoded);
      currentSize := currentSize + data.Length;
      index := index[currentSeq := Position(current.num, offset)];
      handed := |current.data| - |ready.current.data|;
      Assoc(ready.current.data, ready.buffered, encoded);
      FlushSplit(ready.current.data, ready.buffered + encoded, current.data, buffered);
      return Some(currentSeq), handed;
    }

    /** `Sync`: everything buffered reaches the file. */
    method Sync()
      modifies this`current, this`buffered
      ensures View() == Flushed(old(View()), |old(buffered)|)
      ensures OnDisk(crc, View()) == Written(crc, View()) == old(Written(crc, View()))
    {
      FlushAll(crc, View());
      FlushKeeps(crc, View(), |buffered|);
      assert buffered[..|buffered|] == buffered && buffered[|buffered|..] == [];
      current := LogFile(current.num, current.data + buffered);
      buffered := [];
    }

    method Close()
      modifies this
      ensures isClosed
      ensures View() == if old(isClosed) then old(View()) else Flushed(old(View()), |old(buffered)|)
    {
      if !isClosed {
        isClosed := true;
        Sync();
      }
    }

    /** The index read if some wanted sequence is indexed and yields anything, else a scan of every file. */
    method ReadFrom(fromSeq: nat, limit: nat) returns (entries: seq<Entry>)
      requires Valid(crc, View())
      ensures entries == Read(crc, View(), fromSeq, limit)
    {
      hide Whole, Ascending, Written, WrittenIndex, MaxSequence, OnDisk, From, TailFrom;
      var s := fromSeq;
      while s <= currentSeq && s !in index
        invariant fromSeq <= s
        invariant forall t :: fromSeq <= t < s ==> t !in index
        decreases currentSeq - s
      {
        s := s + 1;
      }
      if s <= currentSeq {
        ghost var i := IndexedReadIsComplete(crc, View(), fromSeq, s);
        entries := ReadFromIndex(index[s], fromSeq, limit, i);
        if entries != [] {
          return;
        }
      }
      entries := ReadFromFullScan(fromSeq, limit);
    }

    method ReadFromIndex(start: Position, fromSeq: nat, limit: nat, ghost at: nat) returns (entries: seq<Entry>)
      requires NumbersAscend(View().Files())
      requires at < |View().Files()| && View().Files()[at].num == start.fileNum
      ensures entries == Take(From(TailFrom(crc, View().Files(), at, start.offset), fromSeq), limit)
    {
      hide DecodeAll, From, TailFrom, Take, Ahead;
      var files := closed + [current];
      var i := 0;
      while files[i].num != start.fileNum
        invariant i <= at
        decreases at - i
      {
        i := i + 1;
      }
      entries := [];
      var k := i;
      AheadEnds(crc, files, i, start.offset);
      assert [] + From(Ahead(crc, files, i, i, start.offset), fromSeq) == From(Ahead(crc, files, i, i, start.offset), fromSeq);
      while k < |files| && |entries| < limit
        invariant i <= k <= |files| && |entries| <= limit
        invariant Take(entries + From(Ahead(crc, files, i, k, start.offset), fromSeq), limit) ==
                  Take(From(Ahead(crc, files, i, i, start.offset), fromSeq), limit)
      {
        var r := new Reader(files[k].data, if k == i then start.offset else 0);
        AheadStep(crc, files, i, k, start.offset);
        ghost var acc, here := entries, DecodeAll(crc, r.Rest());
        entries := ScanFile(crc, r, fromSeq, limit, entries);
        TakeStep(acc, here, Ahead(crc, files, i, k + 1, start.offset), fromSeq, limit);
        k := k + 1;
      }
      FromNone([], fromSeq);
      TakeDone(entries, From(Ahead(crc, files, i, k, start.offset), fromSeq), limit);
    }

    method ReadFromFullScan(fromSeq: nat, limit: nat) returns (entries: seq<Entry>)
      ensures entries == Read(crc, View(), fromSeq, limit)
    {
      hide DecodeAll, From;
      var files := closed + [current];
      entries := [];
      var k := 0;
      while k < |files|
        invariant k <= |files| && |entries| <= limit
        invariant Take(entries + From(Entries(crc, files[k..]), fromSeq), limit) ==
                  Take(From(Entries(crc, files), fromSeq), limit)
      {
        var r := new Reader(files[k].data, 0);
        EntriesSplit(crc, files, k);
        ghost var acc, here := entries, DecodeAll(crc, r.Rest());
        entries := ScanFile(crc, r, fromSeq, limit, entries);
        TakeStep(acc, here, Entries(crc, files[k + 1..]), fromSeq, limit);
        k := k + 1;
        if |entries| >= limit {
          break;
        }
      }
      assert |entries| < limit ==> files[k..] == [];
      FromNone([], fromSeq);
      TakeDone(entries, From(Entries(crc, files[k..]), fromSeq), limit);
      EntriesOfNewFile(crc, closed, current);
    }
  }

  /** What an indexed read that started in file `i` still has to go through when it reaches file `k`. */
  function Ahead(crc: Checksum, files: seq<LogFile>, i: nat, k: nat, offset: nat): seq<Entry>
    requires i <= k <= |files| && i < |files|
  {
    if k == i then TailFrom(crc, files, i, offset) else Entries(crc, files[k..])
  }

  lemma AheadStep(crc: Checksum, files: seq<LogFile>, i: nat, k: nat, offset: nat)
    requires i <= k < |files|
    ensures var data := files[k].data;
            var from := if k == i then offset else 0;
            Ahead(crc, files, i, k, offset) ==
            DecodeAll(crc, if from <= |data| then data[from..] else []) + Ahead(crc, files, i, k + 1, offset)
  {
    EntriesSplit(crc, files, k);
    assert files[k].data[0..] == files[k].data;
  }

  lemma AheadEnds(crc: Checksum, files: seq<LogFile>, i: nat, offset: nat)
    requires i < |files|
    ensures Ahead(crc, files, i, i, offset) == TailFrom(crc, files, i, offset)
    ensures Ahead(crc, files, i, |files|, offset) == []
  {
  }

  lemma TakeStep(acc: seq<Entry>, here: seq<Entry>, rest: seq<Entry>, fromSeq: nat, limit: nat)
    ensures Take(Take(acc + From(here, fromSeq), limit) + From(rest, fromSeq), limit) ==
            Take(acc + From(here + rest, fromSeq), limit)
    ensures |Take(acc + From(here, fromSeq), limit)| <= limit
  {
    FromConcat(here, rest, fromSeq);
    var a, b := acc + From(here, fromSeq), From(rest, fromSeq);
    assert acc + From(here + rest, fromSeq) == a + b;
  }

  lemma TakeDone(acc: seq<Entry>, rest: seq<Entry>, limit: nat)
    requires |acc| == limit || (|acc| <= limit && rest == [])
    ensures Take(acc + rest, limit) == acc
  {
  }

  lemma RotatedOnDisk(crc: Checksum, l: Log, num: nat)
    ensures OnDisk(crc, Rotated(l, num)) == Written(crc, Rotated(l, num))
  {
  }

  lemma NothingYet(before: seq<Entry>, soFar: map<nat, Position>, num: nat)
    ensures before + [] == before && soFar + FileIndex(num, []) == soFar && SizeAll([]) == 0
  {
  }

  lemma NoMore(crc: Checksum, s: Bytes)
    requires Decode(crc, s).None?
    ensures DecodeAll(crc, s) == []
  {
  }

  lemma OneMore(before: seq<Entry>, done: seq<Entry>, e: Entry)
    ensures SizeAll(done + [e]) == SizeAll(done) + FRAME + |e.key| + |e.value|
    ensures MaxSequence(before + (done + [e])) ==
            if e.sequence > MaxSequence(before + done) then e.sequence else MaxSequence(before + done)
  {
    assert Init(done + [e]) == done;
    Assoc(before, done, [e]);
    assert Init(before + done + [e]) == before + done;
  }

  lemma FlushSplit(before: Bytes, pending: Bytes, after: Bytes, left: Bytes)
    requires before <= after && after + left == before + pending
    ensures var handed := |after| - |before|;
            handed <= |pending| && after == before + pending[..handed] && left == pending[handed..]
  {
    var handed := |after| - |before|;
    assert (before + pending)[..|after|] == before + pending[..handed];
    assert (before + pending)[|after|..] == pending[handed..];
    assert (after + left)[..|after|] == after && (after + left)[|after|..] == left;
  }
}
