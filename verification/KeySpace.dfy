/** Partition-prefixed storage keys, ordered iteration, and the range scans and deletes built on it. */
module KeySpace {
  import opened Bytes
  import opened Common

  type Db = map<Bytes, Bytes>

  /** "p:" */
  const PARTITION_PREFIX: Bytes := [112, 58]

  const DELETE_BATCH: nat := 10000

  function RangeStart(pid: u32): (s: Bytes)
    ensures |s| == 6
  {
    PARTITION_PREFIX + BigEndian(pid, 4)
  }

  /** The bound uses `pid + 1` in 32 bits. */
  function RangeEnd(pid: u32): (s: Bytes)
    ensures |s| == 6
  {
    PARTITION_PREFIX + BigEndian(pid + 1, 4)
  }

  function PartitionKey(pid: u32, key: Bytes): Bytes {
    RangeStart(pid) + key
  }

  predicate InRange(k: Bytes, pid: u32) {
    !LexLess(k, RangeStart(pid)) && LexLess(k, RangeEnd(pid))
  }

  /** Keys of partition `pid`: those carrying its prefix. */
  predicate InPartition(k: Bytes, pid: u32) {
    RangeStart(pid) <= k
  }

  /** A storage key is "p:", the partition id in four bytes, and the key. */
  lemma KeyLayout(pid: u32, key: Bytes)
    ensures var s := PartitionKey(pid, key);
            |s| == 6 + |key| && s[0] == 112 && s[1] == 58 && FromBigEndian(s[2..6]) == pid && s[6..] == key
  {
    hide BigEndian, FromBigEndian;
    Widths();
    assert PartitionKey(pid, key)[2..6] == BigEndian(pid, 4);
    BigEndianRoundTrip(pid, 4);
  }

  /** `compareBytes` decides the byte-wise order. */
  method CompareBytes(a: Bytes, b: Bytes) returns (c: int)
    ensures c == if LexLess(a, b) then -1 else if LexLess(b, a) then 1 else 0
    ensures c == 0 <==> a == b
  {
    var minLen := if |b| < |a| then |b| else |a|;
    LexTotal(a, b);
    for i := 0 to minLen
      invariant a[..i] == b[..i]
    {
      LexAtFirstDifference(a, b, i);
      if a[i] < b[i] {
        return -1;
      }
      if a[i] > b[i] {
        return 1;
      }
      assert a[..i + 1] == a[..i] + [a[i]] && b[..i + 1] == b[..i] + [b[i]];
    }
    LexAtFirstDifference(a, b, minLen);
    if |a| < |b| {
      return -1;
    }
    if |a| > |b| {
      return 1;
    }
    assert a == a[..minLen] && b == b[..minLen];
    return 0;
  }

  lemma LexAtFirstDifference(a: Bytes, b: Bytes, i: nat)
    requires i <= |a| && i <= |b| && a[..i] == b[..i]
    ensures LexLess(a, b) <==> LexLess(a[i..], b[i..])
    ensures LexLess(b, a) <==> LexLess(b[i..], a[i..])
  {
    LexCommonPrefix(a[..i], a[i..], b[i..]);
    LexCommonPrefix(a[..i], b[i..], a[i..]);
    assert a == a[..i] + a[i..] && b == a[..i] + b[i..];
  }

  /**
   * For keys of at least six bytes, lying in the range of a partition means carrying its
   * prefix, byte carries included; only for the largest id does the upper bound wrap to an
   * empty range.
   */
  lemma RangeIsPrefix(k: Bytes, pid: u32)
    requires |k| >= 6
    ensures InRange(k, pid) <==> InPartition(k, pid) && pid != TWO_32 - 1
  {
    var c := k[..6];
    LexTruncate(k, RangeStart(pid));
    LexTruncate(k, RangeEnd(pid));
    assert InPartition(k, pid) <==> c == RangeStart(pid);
    if PARTITION_PREFIX <= c {
      HeadRange(c, pid);
    } else {
      HeadOutside(c, pid);
    }
  }

  lemma HeadRange(c: Bytes, pid: u32)
    requires |c| == 6 && PARTITION_PREFIX <= c
    ensures !LexLess(c, RangeStart(pid)) && LexLess(c, RangeEnd(pid)) <==> c == RangeStart(pid) && pid != TWO_32 - 1
  {
    var v, end := FromBigEndian(c[2..]), if pid == TWO_32 - 1 then 0 else pid + 1;
    FromBigEndianRoundTrip(c[2..]);
    FromBigEndianBound(c[2..]);
    Widths();
    assert c == PARTITION_PREFIX + BigEndian(v, 4);
    assert BigEndian(pid + 1, 4) == BigEndian(end, 4) by {
      if pid == TWO_32 - 1 {
        WrapsToZero();
      }
    }
    LexCommonPrefix(PARTITION_PREFIX, BigEndian(v, 4), BigEndian(pid, 4));
    LexCommonPrefix(PARTITION_PREFIX, BigEndian(v, 4), BigEndian(end, 4));
    BigEndianOrder(v, pid, 4);
    BigEndianOrder(v, end, 4);
    BigEndianRoundTrip(pid, 4);
    assert c == RangeStart(pid) <==> v == pid by {
      assert RangeStart(pid)[2..] == BigEndian(pid, 4);
    }
  }

  lemma WrapsToZero()
    ensures BigEndian(TWO_32, 4) == BigEndian(0, 4)
  {
    assert BigEndian(TWO_32, 4) == BigEndian(0x100_0000, 3) + [0];
    assert BigEndian(0x100_0000, 3) == BigEndian(0x1_0000, 2) + [0];
    assert BigEndian(0x1_0000, 2) == BigEndian(0x100, 1) + [0];
    assert BigEndian(0x100, 1) == BigEndian(1, 0) + [0];
    assert BigEndian(0, 4) == BigEndian(0, 3) + [0];
    assert BigEndian(0, 3) == BigEndian(0, 2) + [0];
    assert BigEndian(0, 2) == BigEndian(0, 1) + [0];
    assert BigEndian(0, 1) == BigEndian(0, 0) + [0];
  }

  lemma HeadOutside(c: Bytes, pid: u32)
    requires |c| == 6 && !(PARTITION_PREFIX <= c)
    ensures !(!LexLess(c, RangeStart(pid)) && LexLess(c, RangeEnd(pid)))
    ensures c != RangeStart(pid)
  {
    var start, end := RangeStart(pid), RangeEnd(pid);
    if !LexLess(c, start) {
      if LexLess(c, PARTITION_PREFIX) {
        PrefixNotLess(PARTITION_PREFIX, start);
        BelowPrefix(c, start);
      } else {
        PrefixContiguous(PARTITION_PREFIX, end, c);
        LexTotal(c, end);
      }
    }
  }

  lemma BelowPrefix(c: Bytes, k: Bytes)
    requires LexLess(c, PARTITION_PREFIX) && PARTITION_PREFIX <= k
    ensures LexLess(c, k)
  {
    PrefixNotLess(PARTITION_PREFIX, k);
    LexTotal(k, PARTITION_PREFIX);
    if k != PARTITION_PREFIX {
      LexTransitive(c, PARTITION_PREFIX, k);
    }
  }

  // ---- Keys shorter than a prefix ----

  /** "p:" and four zero bytes, as a number. */
  const PREFIX_VALUE: nat := 0x703A_0000_0000

  lemma PrefixedNumber(n: nat)
    requires n < TWO_32
    ensures PARTITION_PREFIX + BigEndian(n, 4) == BigEndian(PREFIX_VALUE + n, 6)
  {
    var a, b, c := n / 256, n / 256 / 256, n / 256 / 256 / 256;
    assert BigEndian(0x703A, 2) == PARTITION_PREFIX by { assert BigEndian(0x70, 1) == [0x70] by { assert BigEndian(0, 0) == []; } }
    assert BigEndian(0x70_3A00 + c, 3) == PARTITION_PREFIX + [c % 256];
    assert BigEndian(0x703A_0000 + b, 4) == PARTITION_PREFIX + [c % 256] + [b % 256];
    assert BigEndian(0x70_3A00_0000 + a, 5) == PARTITION_PREFIX + [c % 256] + [b % 256] + [a % 256];
    assert BigEndian(c, 1) == [c % 256] by { assert BigEndian(c / 256, 0) == []; }
    assert BigEndian(b, 2) == [c % 256] + [b % 256];
    assert BigEndian(a, 3) == [c % 256] + [b % 256] + [a % 256];
  }

  /**
   * A key of fewer than six bytes, which carries no partition's prefix, lies in a range exactly
   * when it begins the range's end and not its start.
   */
  lemma ShortKeyInRange(k: Bytes, pid: u32)
    requires |k| < 6
    ensures !InPartition(k, pid)
    ensures InRange(k, pid) <==> pid != TWO_32 - 1 && k <= RangeEnd(pid) && !(k <= RangeStart(pid))
  {
    var start, end := RangeStart(pid), RangeEnd(pid);
    var a, b := start[..|k|], end[..|k|];
    LexShort(k, start);
    LexShort(k, end);
    LexTotal(k, a);
    LexTotal(k, b);
    assert k <= end <==> k == b;
    assert k <= start <==> k == a;
    if pid == TWO_32 - 1 {
      LastRangeEmpty(k);
    } else {
      SuccessiveHeads(k, pid);
    }
  }

  lemma SuccessiveHeads(k: Bytes, pid: u32)
    requires |k| < 6 && pid != TWO_32 - 1
    ensures var a, b := RangeStart(pid)[..|k|], RangeEnd(pid)[..|k|];
            && (LexLess(a, k) && !LexLess(b, k) ==> k == b)
            && (a != b ==> LexLess(a, b))
  {
    hide LexLess, BigEndian;
    var n := PREFIX_VALUE + pid;
    var a, b := RangeStart(pid)[..|k|], RangeEnd(pid)[..|k|];
    PrefixedNumber(pid);
    PrefixedNumber(pid + 1);
    SixBytes(n + 1);
    if LexLess(a, k) && !LexLess(b, k) {
      NothingBetween(n, 6, k);
    }
    HeadsAscend(BigEndian(n, 6), BigEndian(n + 1, 6), |k|) by { BigEndianOrder(n, n + 1, 6); }
  }

  lemma SixBytes(n: nat)
    requires n <= PREFIX_VALUE + TWO_32
    ensures n < Pow256(6)
  {
    Widths();
    assert Pow256(5) == 256 * Pow256(4) && Pow256(6) == 256 * Pow256(5);
  }

  lemma {:induction false} HeadsAscend(a: Bytes, b: Bytes, m: nat)
    requires |a| == |b| && m <= |a| && LexLess(a, b)
    ensures a[..m] != b[..m] ==> LexLess(a[..m], b[..m])
  {
    if m > 0 && a[0] == b[0] {
      HeadsAscend(a[1..], b[1..], m - 1);
      assert a[..m][1..] == a[1..][..m - 1] && b[..m][1..] == b[1..][..m - 1];
      assert a[..m] == [a[0]] + a[..m][1..] && b[..m] == [b[0]] + b[..m][1..];
    }
  }

  /** The last partition's range ends before it starts. */
  lemma LastRangeEmpty(k: Bytes)
    ensures !InRange(k, TWO_32 - 1)
  {
    hide LexLess, BigEndian;
    var start, end := RangeStart(TWO_32 - 1), RangeEnd(TWO_32 - 1);
    Widths();
    WrapsToZero();
    BigEndianOrder(0, TWO_32 - 1, 4);
    LexCommonPrefix(PARTITION_PREFIX, BigEndian(0, 4), BigEndian(TWO_32 - 1, 4));
    if InRange(k, TWO_32 - 1) {
      LexTransitive(k, end, start);
    }
  }

  /** Some short key lies in a partition's range exactly when the next id carries into its third byte. */
  lemma ShortKeyExists(pid: u32)
    requires pid != TWO_32 - 1
    ensures (exists k :: |k| < 6 && InRange(k, pid)) <==> pid % 256 == 255
  {
    hide InRange;
    var start, end := RangeStart(pid), RangeEnd(pid);
    FiveBytes(pid);
    if pid % 256 == 255 {
      ShortKeyInRange(end[..5], pid);
      assert end[..5] <= end;
    }
    if k :| |k| < 6 && InRange(k, pid) {
      ShortKeyInRange(k, pid);
      assert k == end[..5][..|k|] && start[..5][..|k|] == start[..|k|];
    }
  }

  lemma FiveBytes(pid: u32)
    requires pid != TWO_32 - 1
    ensures RangeStart(pid)[..5] == RangeEnd(pid)[..5] <==> pid % 256 != 255
  {
    Widths();
    var a, b := BigEndian(pid / 256, 3), BigEndian((pid + 1) / 256, 3);
    assert RangeStart(pid)[..5] == PARTITION_PREFIX + a && RangeEnd(pid)[..5] == PARTITION_PREFIX + b;
    assert a == (PARTITION_PREFIX + a)[2..] && b == (PARTITION_PREFIX + b)[2..];
    assert Pow256(4) == 256 * Pow256(3);
    BigEndianRoundTrip(pid / 256, 3);
    BigEndianRoundTrip((pid + 1) / 256, 3);
  }

  // ---- Ordered iteration ----

  predicate Sorted(keys: seq<Bytes>) {
    forall i, j :: 0 <= i < j < |keys| ==> LexLess(keys[i], keys[j])
  }

  predicate IsLeast(x: Bytes, s: set<Bytes>) {
    x in s && forall y :: y in s && y != x ==> LexLess(x, y)
  }

  lemma {:induction false} LeastExists(s: set<Bytes>)
    requires s != {}
    ensures exists x :: IsLeast(x, s)
    decreases |s|
  {
    var x :| x in s;
    var rest := s - {x};
    if rest == {} {
      assert s == {x};
      assert IsLeast(x, s);
    } else {
      LeastExists(rest);
      var m :| IsLeast(m, rest);
      LexTotal(x, m);
      if LexLess(x, m) {
        forall y | y in s && y != x ensures LexLess(x, y) {
          if y != m {
            LexTransitive(x, m, y);
          }
        }
        assert IsLeast(x, s);
      } else {
        assert IsLeast(m, s);
      }
    }
  }

  class Database {
    var content: Db

    /** A snapshot of the keys in byte order, positioned at the first one not below `start`. */
    method Seek(start: Bytes) returns (keys: seq<Bytes>)
      ensures Sorted(keys)
      ensures forall k :: k in keys <==> k in content && !LexLess(k, start)
    {
      keys := [];
      var todo := content.Keys;
      while todo != {}
        invariant todo <= content.Keys
        invariant Sorted(keys)
        invariant forall k :: k in keys <==> k in content && k !in todo && !LexLess(k, start)
        invariant forall i, y :: 0 <= i < |keys| && y in todo ==> LexLess(keys[i], y)
        decreases |todo|
      {
        LeastExists(todo);
        var k :| k in todo && IsLeast(k, todo);
        if !LexLess(k, start) {
          keys := keys + [k];
        }
        todo := todo - {k};
      }
    }
  }

  /** The keys of one pass: from the start of the range, at most a batch, stopping at its end. */
  method CollectBatch(db: Database, pid: u32, limit: nat) returns (batch: seq<Bytes>)
    requires limit > 0
    ensures |batch| <= limit && Sorted(batch)
    ensures forall k :: k in batch ==> k in db.content && InRange(k, pid)
    ensures |batch| < limit ==> forall k :: k in db.content && InRange(k, pid) ==> k in batch
  {
    var keys := db.Seek(RangeStart(pid));
    batch := [];
    var i := 0;
    while i < |keys| && |batch| < limit
      invariant i <= |keys| && |batch| <= limit && batch == keys[..i]
      invariant forall j :: 0 <= j < i ==> InRange(keys[j], pid)
    {
      var c := CompareBytes(keys[i], RangeEnd(pid));
      if c >= 0 {
        PastTheEnd(keys, i, pid);
        return;
      }
      assert keys[i] in keys;
      batch := batch + [keys[i]];
      i := i + 1;
    }
  }

  lemma PastTheEnd(keys: seq<Bytes>, i: nat, pid: u32)
    requires Sorted(keys) && i < |keys| && !LexLess(keys[i], RangeEnd(pid))
    ensures forall k :: k in keys && LexLess(k, RangeEnd(pid)) ==> k in keys[..i]
  {
    forall k | k in keys && LexLess(k, RangeEnd(pid)) ensures k in keys[..i] {
      var j :| 0 <= j < |keys| && keys[j] == k;
      if j > i {
        LexTransitive(keys[i], keys[j], RangeEnd(pid));
      }
      assert keys[..i][j] == k;
    }
  }

  /** What a scan of the partition's range goes through. */
  function RangeSet(db: Db, pid: u32): set<Bytes> {
    set k | k in db && InRange(k, pid)
  }

  /** The keys that belong to the partition. */
  function KeysOf(db: Db, pid: u32): set<Bytes> {
    set k | k in db && InPartition(k, pid)
  }

  /** Every key in the store was built with a partition prefix, so is at least that long. */
  predicate KeysPrefixed(db: Db) {
    forall k :: k in db ==> |k| >= 6
  }

  lemma RangeCoversPartition(db: Db, pid: u32)
    requires KeysPrefixed(db)
    ensures RangeSet(db, pid) == if pid == TWO_32 - 1 then {} else KeysOf(db, pid)
  {
    forall k | k in db ensures InRange(k, pid) <==> k in KeysOf(db, pid) && pid != TWO_32 - 1 {
      RangeIsPrefix(k, pid);
    }
  }

  lemma {:induction false} SortedDistinct(s: seq<Bytes>)
    requires Sorted(s)
    ensures |set k | k in s| == |s|
  {
    if s != [] {
      var init, last := s[..|s| - 1], s[|s| - 1];
      SortedDistinct(init);
      LexTotal(last, last);
      assert (set k | k in s) == (set k | k in init) + {last};
    }
  }

  /** One pass takes exactly its batch out of what is left of the range. */
  lemma DeleteBatch(db: Db, pid: u32, batch: seq<Bytes>, orig: Db, doomed: set<Bytes>)
    requires Sorted(batch) && batch != [] && forall k :: k in batch ==> k in RangeSet(db, pid)
    requires RangeSet(db, pid) <= doomed && db == orig - (doomed - RangeSet(db, pid))
    ensures var after := db - set k | k in batch;
            && |RangeSet(after, pid)| == |RangeSet(db, pid)| - |batch|
            && RangeSet(after, pid) <= doomed
            && after == orig - (doomed - RangeSet(after, pid))
  {
    var gone := set k | k in batch;
    SortedDistinct(batch);
    assert gone <= RangeSet(db, pid);
    assert RangeSet(db - gone, pid) == RangeSet(db, pid) - gone;
    assert doomed - (RangeSet(db, pid) - gone) == (doomed - RangeSet(db, pid)) + gone;
  }

  /**
   * `DeletePartitionData`: collect a batch, delete it, start over, until a pass finds nothing.
   * It removes and counts exactly the range, which is the partition when keys carry prefixes.
   */
  method DeletePartitionData(db: Database, pid: u32, hasPartition: bool) returns (keyCount: Option<nat>)
    modifies db
    ensures !hasPartition ==> keyCount == None && db.content == old(db.content)
    ensures hasPartition ==> keyCount == Some(|RangeSet(old(db.content), pid)|)
    ensures hasPartition ==> db.content == old(db.content) - RangeSet(old(db.content), pid)
    ensures KeysPrefixed(old(db.content)) && pid != TWO_32 - 1 ==>
              RangeSet(old(db.content), pid) == KeysOf(old(db.content), pid)
  {
    hide LexLess, InRange, Sorted;
    if KeysPrefixed(db.content) {
      RangeCoversPartition(db.content, pid);
    }
    if !hasPartition {
      return None;
    }
    ghost var doomed := RangeSet(db.content, pid);
    var count := 0;
    while true
      invariant db.content == old(db.content) - (doomed - RangeSet(db.content, pid))
      invariant RangeSet(db.content, pid) <= doomed
      invariant count + |RangeSet(db.content, pid)| == |doomed|
      decreases |RangeSet(db.content, pid)|
    {
      var batch := CollectBatch(db, pid, DELETE_BATCH);
      if |batch| == 0 {
        assert RangeSet(db.content, pid) == {};
        break;
      }
      DeleteBatch(db.content, pid, batch, old(db.content), doomed);
      db.content := db.content - set k | k in batch;
      count := count + |batch|;
    }
    return Some(count);
  }

  /** The scan of `ExportPartition`: the range's pairs, in key order, and nothing else. */
  method ExportPartition(db: Database, pid: u32) returns (pairs: seq<(Bytes, Bytes)>)
    ensures forall i, j :: 0 <= i < j < |pairs| ==> LexLess(pairs[i].0, pairs[j].0)
    ensures forall p :: p in pairs <==> p.0 in RangeSet(db.content, pid) && db.content[p.0] == p.1
    ensures KeysPrefixed(db.content) && pid != TWO_32 - 1 ==>
              RangeSet(db.content, pid) == KeysOf(db.content, pid)
  {
    hide LexLess;
    if KeysPrefixed(db.content) {
      RangeCoversPartition(db.content, pid);
    }
    var keys := db.Seek(RangeStart(pid));
    pairs := [];
    var i := 0;
    while i < |keys|
      invariant i <= |keys| && |pairs| == i
      invariant forall j :: 0 <= j < i ==>
                  keys[j] in db.content && InRange(keys[j], pid) && pairs[j] == (keys[j], db.content[keys[j]])
    {
      var c := CompareBytes(keys[i], RangeEnd(pid));
      if c >= 0 {
        PastTheEnd(keys, i, pid);
        break;
      }
      assert keys[i] in keys;
      pairs := pairs + [(keys[i], db.content[keys[i]])];
      i := i + 1;
    }
    forall p: (Bytes, Bytes) | p.0 in RangeSet(db.content, pid) && db.content[p.0] == p.1 ensures p in pairs {
      assert p.0 in keys[..i];
      var j :| 0 <= j < i && keys[j] == p.0;
      assert pairs[j] == p;
    }
  }
}
