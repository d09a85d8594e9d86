/** The log form of a batch of field updates: a versioned format and the legacy one without the version byte. */
module FieldCodec {
  import opened Bytes
  import opened Common

  const FORMAT_VERSION: byte := 1

  datatype FieldUpdate = FieldUpdate(name: Bytes, value: Bytes, isDelete: bool)
  datatype FieldBatch = FieldBatch(partitionId: nat, primaryKey: Bytes, updates: seq<FieldUpdate>)

  /** Every number and length fits the width it is written in. */
  predicate WellFormedUpdate(u: FieldUpdate) {
    |u.name| < TWO_16 && |u.value| < TWO_32
  }

  predicate WellFormed(fb: FieldBatch) {
    && fb.partitionId < TWO_32 && |fb.primaryKey| < TWO_32 && |fb.updates| < TWO_32
    && forall i :: 0 <= i < |fb.updates| ==> WellFormedUpdate(fb.updates[i])
  }

  function UpdateBytes(u: FieldUpdate): Bytes {
    BigEndian(|u.name|, 2) + u.name + [if u.isDelete then 1 else 0] + BigEndian(|u.value|, 4) + u.value
  }

  function UpdatesBytes(us: seq<FieldUpdate>): Bytes {
    if us == [] then [] else UpdateBytes(us[0]) + UpdatesBytes(us[1..])
  }

  /** The legacy encoding. */
  function Content(fb: FieldBatch): Bytes {
    BigEndian(fb.partitionId, 4) + BigEndian(|fb.primaryKey|, 4) + fb.primaryKey +
    BigEndian(|fb.updates|, 4) + UpdatesBytes(fb.updates)
  }

  /** `FieldBatch.Encode`. */
  function Versioned(fb: FieldBatch): Bytes {
    [FORMAT_VERSION] + Content(fb)
  }

  /** Where the parts of a batch lie: partition, primary key with its length, count, then the updates. */
  lemma ContentLayout(fb: FieldBatch)
    requires WellFormed(fb)
    ensures var s, k := Content(fb), |fb.primaryKey|;
            && |s| >= 12 + k && FromBigEndian(s[..4]) == fb.partitionId && FromBigEndian(s[4..8]) == k
            && s[8..8 + k] == fb.primaryKey && FromBigEndian(s[8 + k..12 + k]) == |fb.updates| && s[12 + k..] == UpdatesBytes(fb.updates)
  {
    hide FromBigEndian, BigEndian, UpdatesBytes;
    Widths();
    var s, k := Content(fb), |fb.primaryKey|;
    assert s[..4] == BigEndian(fb.partitionId, 4) && s[4..8] == BigEndian(k, 4) && s[8 + k..12 + k] == BigEndian(|fb.updates|, 4);
    BigEndianRoundTrip(fb.partitionId, 4);
    BigEndianRoundTrip(k, 4);
    BigEndianRoundTrip(|fb.updates|, 4);
  }

  /** And of an update: name with its length, delete flag, value with its length. */
  lemma UpdateLayout(u: FieldUpdate, rest: seq<FieldUpdate>)
    requires WellFormedUpdate(u)
    ensures var s, n, v := UpdatesBytes([u] + rest), |u.name|, |u.value|;
            && |s| >= 7 + n + v && FromBigEndian(s[..2]) == n && s[2..2 + n] == u.name
            && s[2 + n] == (if u.isDelete then 1 else 0) && FromBigEndian(s[3 + n..7 + n]) == v
            && s[7 + n..7 + n + v] == u.value && s[7 + n + v..] == UpdatesBytes(rest)
  {
    assert ([u] + rest)[1..] == rest;
    var s, n, v := UpdatesBytes([u] + rest), |u.name|, |u.value|;
    assert s == UpdateBytes(u) + UpdatesBytes(rest);
    hide FromBigEndian, BigEndian, UpdatesBytes;
    Widths();
    assert s[..2] == BigEndian(n, 2) && s[3 + n..7 + n] == BigEndian(v, 4);
    BigEndianRoundTrip(n, 2);
    BigEndianRoundTrip(v, 4);
  }

  // ---- Decoding, over the bytes a `bytes.Reader` has left ----

  datatype Parsed<+T> = Failed | Got(value: T, rest: Bytes)

  /** `binary.Read` of a fixed-width integer. */
  function ReadUint(s: Bytes, k: nat): Parsed<nat> {
    if |s| < k then Failed else Got(FromBigEndian(s[..k]), s[k..])
  }

  function Zeros(n: nat): (s: Bytes)
    ensures |s| == n
  {
    seq(n, i => 0)
  }

  /** `bytes.Reader.Read` into a buffer of `n` zero bytes: fails only at the end of input, may come up short. */
  function ReadInto(s: Bytes, n: nat): (r: Parsed<Bytes>)
    ensures r.Got? ==> |r.value| == n
  {
    if s == [] then Failed
    else if n <= |s| then Got(s[..n], s[n..])
    else Got(s + Zeros(n - |s|), [])
  }

  /** The value is read only when its length is not zero. */
  function ReadValue(s: Bytes, n: nat): (r: Parsed<Bytes>)
    ensures r.Got? ==> |r.value| == n
  {
    if n > 0 then ReadInto(s, n) else Got([], s)
  }

  function ParseUpdate(s: Bytes): Parsed<FieldUpdate> {
    match ReadUint(s, 2)
    case Failed => Failed
    case Got(nameLen, s1) =>
      match ReadInto(s1, nameLen)
      case Failed => Failed
      case Got(name, s2) =>
        match ReadUint(s2, 1)
        case Failed => Failed
        case Got(flag, s3) =>
          match ReadUint(s3, 4)
          case Failed => Failed
          case Got(valueLen, s4) =>
            match ReadValue(s4, valueLen)
            case Failed => Failed
            case Got(value, s5) => Got(FieldUpdate(name, value, flag == 1), s5)
  }

  function ParseUpdates(s: Bytes, count: nat): Parsed<seq<FieldUpdate>> {
    if count == 0 then Got([], s) else
    match ParseUpdate(s)
    case Failed => Failed
    case Got(u, rest) =>
      match ParseUpdates(rest, count - 1)
      case Failed => Failed
      case Got(us, last) => Got([u] + us, last)
  }

  /** `decodeFieldBatchContent`; bytes after the last update are ignored. */
  function ParseContent(s: Bytes): Option<FieldBatch> {
    match ReadUint(s, 4)
    case Failed => None
    case Got(partitionId, s1) =>
      match ReadUint(s1, 4)
      case Failed => None
      case Got(pkLen, s2) =>
        match ReadInto(s2, pkLen)
        case Failed => None
        case Got(pk, s3) =>
          match ReadUint(s3, 4)
          case Failed => None
          case Got(count, s4) =>
            match ParseUpdates(s4, count)
            case Failed => None
            case Got(us, _) => Some(FieldBatch(partitionId, pk, us))
  }

  /** `DecodeFieldBatch`: a first byte of 1 means versioned, anything else legacy. */
  function DecodeFieldBatch(data: Bytes): Option<FieldBatch> {
    if data == [] then None
    else if data[0] == FORMAT_VERSION then (if |data| < 13 then None else ParseContent(data[1..]))
    else if |data| >= 12 then ParseContent(data)
    else None
  }

  // ---- Round trips ----

  lemma ReadBackUint(n: nat, k: nat, rest: Bytes)
    requires n < Pow256(k)
    ensures ReadUint(BigEndian(n, k) + rest, k) == Got(n, rest)
  {
    var s := BigEndian(n, k) + rest;
    assert s[..k] == BigEndian(n, k) && s[k..] == rest;
    BigEndianRoundTrip(n, k);
  }

  lemma ReadBackBytes(b: Bytes, rest: Bytes)
    ensures rest != [] ==> ReadInto(b + rest, |b|) == Got(b, rest)
    ensures ReadValue(b + rest, |b|) == Got(b, rest)
  {
    assert (b + rest)[..|b|] == b && (b + rest)[|b|..] == rest;
    assert b == [] ==> b + rest == rest;
  }

  /** The bytes of an update with any flag byte, up to its value. */
  function UpdateHead(name: Bytes, flag: byte, valueLen: nat): Bytes {
    BigEndian(|name|, 2) + name + [flag] + BigEndian(valueLen, 4)
  }

  /** What follows the head is read as the value; the update is a delete exactly when the flag byte is 1. */
  lemma HeadReads(name: Bytes, flag: byte, valueLen: nat, rest: Bytes)
    requires |name| < TWO_16 && valueLen < TWO_32
    ensures ParseUpdate(UpdateHead(name, flag, valueLen) + rest) ==
            match ReadValue(rest, valueLen)
            case Failed => Failed
            case Got(value, left) => Got(FieldUpdate(name, value, flag == 1), left)
  {
    hide ReadUint, ReadInto, ReadValue, BigEndian, FromBigEndian;
    Widths();
    var s3 := BigEndian(valueLen, 4) + rest;
    var s2 := [flag] + s3;
    var s1 := name + s2;
    assert UpdateHead(name, flag, valueLen) + rest == BigEndian(|name|, 2) + s1;
    ReadBackUint(|name|, 2, s1);
    ReadBackBytes(name, s2);
    OneByte(flag);
    ReadBackUint(flag, 1, s3);
    ReadBackUint(valueLen, 4, rest);
  }

  /** A value cut short, but not away, is filled up with zero bytes instead of failing. */
  lemma ShortValuePads(name: Bytes, flag: byte, valueLen: nat, short: Bytes)
    requires |name| < TWO_16 && valueLen < TWO_32 && 0 < |short| < valueLen
    ensures var r := ParseUpdate(UpdateHead(name, flag, valueLen) + short);
            && r.Got? && r.rest == [] && r.value.name == name && r.value.isDelete == (flag == 1)
            && |r.value.value| == valueLen && short <= r.value.value && forall i :: |short| <= i < valueLen ==> r.value.value[i] == 0
  {
    hide ParseUpdate, UpdateHead;
    HeadReads(name, flag, valueLen, short);
  }

  lemma UpdateRoundTrip(u: FieldUpdate, rest: Bytes)
    requires WellFormedUpdate(u)
    ensures ParseUpdate(UpdateBytes(u) + rest) == Got(u, rest)
  {
    hide ParseUpdate, ReadValue;
    var flag := if u.isDelete then 1 else 0;
    HeadReads(u.name, flag, |u.value|, u.value + rest);
    ReadBackBytes(u.value, rest);
    assert UpdateBytes(u) + rest == UpdateHead(u.name, flag, |u.value|) + (u.value + rest);
  }

  lemma OneByte(b: byte)
    ensures BigEndian(b, 1) == [b]
  {
    assert BigEndian(b / 256, 0) == [];
  }

  lemma {:induction false} UpdatesRoundTrip(us: seq<FieldUpdate>, rest: Bytes)
    requires forall i :: 0 <= i < |us| ==> WellFormedUpdate(us[i])
    ensures ParseUpdates(UpdatesBytes(us) + rest, |us|) == Got(us, rest)
  {
    hide ParseUpdate, UpdateBytes, WellFormedUpdate;
    if us == [] {
      assert UpdatesBytes(us) + rest == rest;
    } else {
      UpdateRoundTrip(us[0], UpdatesBytes(us[1..]) + rest);
      UpdatesRoundTrip(us[1..], rest);
      assert UpdatesBytes(us) + rest == UpdateBytes(us[0]) + (UpdatesBytes(us[1..]) + rest);
      assert us == [us[0]] + us[1..];
    }
  }

  lemma ContentRoundTrip(fb: FieldBatch)
    requires WellFormed(fb)
    ensures ParseContent(Content(fb)) == Some(fb)
  {
    hide ReadUint, ReadInto, BigEndian, FromBigEndian, ParseUpdates, UpdatesBytes;
    Widths();
    var s4 := UpdatesBytes(fb.updates);
    var s3 := BigEndian(|fb.updates|, 4) + s4;
    var s2 := fb.primaryKey + s3;
    var s1 := BigEndian(|fb.primaryKey|, 4) + s2;
    assert Content(fb) == BigEndian(fb.partitionId, 4) + s1;
    ReadBackUint(fb.partitionId, 4, s1);
    ReadBackUint(|fb.primaryKey|, 4, s2);
    ReadBackBytes(fb.primaryKey, s3);
    ReadBackUint(|fb.updates|, 4, s4);
    UpdatesRoundTrip(fb.updates, []);
    assert s4 + [] == s4;
  }

  lemma ParsedUint(s: Bytes, k: nat)
    ensures ReadUint(s, k).Got? ==> ReadUint(s, k).value < Pow256(k)
  {
    if |s| >= k {
      FromBigEndianBound(s[..k]);
    }
  }

  lemma {:induction false} ParsedUpdatesFit(s: Bytes, count: nat)
    ensures var r := ParseUpdates(s, count);
            r.Got? ==> |r.value| == count && forall i :: 0 <= i < count ==> WellFormedUpdate(r.value[i])
    decreases count
  {
    hide ParseUpdate, WellFormedUpdate;
    if count > 0 && ParseUpdate(s).Got? {
      ParsedUpdateFits(s);
      ParsedUpdatesFit(ParseUpdate(s).rest, count - 1);
    }
  }

  lemma ParsedUpdateFits(s: Bytes)
    ensures ParseUpdate(s).Got? ==> WellFormedUpdate(ParseUpdate(s).value)
  {
    if ParseUpdate(s).Got? {
      Widths();
      ParsedUint(s, 2);
      var s2 := ReadInto(ReadUint(s, 2).rest, ReadUint(s, 2).value).rest;
      ParsedUint(ReadUint(s2, 1).rest, 4);
    }
  }

  lemma ParsedContentFits(s: Bytes)
    ensures ParseContent(s).Some? ==> WellFormed(ParseContent(s).value)
  {
    hide ParseUpdates, WellFormedUpdate;
    if ParseContent(s).Some? {
      Widths();
      ParsedUint(s, 4);
      var s1 := ReadUint(s, 4).rest;
      ParsedUint(s1, 4);
      var s3 := ReadInto(ReadUint(s1, 4).rest, ReadUint(s1, 4).value).rest;
      ParsedUint(s3, 4);
      ParsedUpdatesFit(ReadUint(s3, 4).rest, ReadUint(s3, 4).value);
    }
  }

  /** The versioned form decodes to the batch exactly when every number and length fits its field. */
  lemma VersionedRoundTrip(fb: FieldBatch)
    ensures DecodeFieldBatch(Versioned(fb)) == Some(fb) <==> WellFormed(fb)
  {
    hide ParseContent, WellFormed;
    assert Versioned(fb)[1..] == Content(fb);
    ParsedContentFits(Content(fb));
    if WellFormed(fb) {
      ContentRoundTrip(fb);
    }
  }

  // ---- A batch read one byte too late never comes out as itself ----

  lemma {:induction false} ShiftedIsZero(b: Bytes)
    requires b != [] && b == b[1..] + [0]
    ensures b[0] == 0
  {
    assert b[|b| - 1] == 0;
    if |b| > 1 {
      assert b[1..] == b[1..][1..] + [0];
      ShiftedIsZero(b[1..]);
      assert b[0] == b[1..][0];
    }
  }

  /** A four-byte number that reads the same with a zero byte shifted in is zero. */
  lemma ShiftedLengthIsZero(n: nat)
    requires n < TWO_32 && FromBigEndian(BigEndian(n, 4)[1..] + [0]) == n
    ensures n == 0
  {
    Widths();
    var b := BigEndian(n, 4);
    FromBigEndianRoundTrip(b[1..] + [0]);
    assert b == b[1..] + [0];
    assert b[3] == 0 && b[2] == b[3] && b[1] == b[2] && b[0] == b[1];
    assert b == BigEndian(0, 4) by { FromBigEndianRoundTrip(b); AllZero(); }
    BigEndianRoundTrip(n, 4);
    BigEndianRoundTrip(0, 4);
  }

  lemma AllZero()
    ensures BigEndian(0, 4) == [0, 0, 0, 0]
  {
    assert BigEndian(0, 1) == [0];
    assert BigEndian(0, 2) == [0, 0];
    assert BigEndian(0, 3) == [0, 0, 0];
  }

  /** An update that parses takes as many bytes as it is written in, if there are that many. */
  lemma ParseTakes(s: Bytes, u: FieldUpdate)
    requires ParseUpdate(s).Got? && ParseUpdate(s).value == u && |UpdateBytes(u)| <= |s|
    ensures ParseUpdate(s).rest == s[|UpdateBytes(u)|..]
  {
    hide FromBigEndian, BigEndian;
    var n := |u.name|;
    assert |UpdateBytes(u)| == 7 + n + |u.value|;
    var s2 := ReadInto(s[2..], n).rest;
    assert s2 == s[2 + n..];
    var s4 := s2[1..][4..];
    assert s4 == s[7 + n..];
    assert u.value != [] ==> s4[|u.value|..] == s[7 + n + |u.value|..];
  }

  /** Missing its first byte, one update runs out of input or turns into zeros. */
  lemma LateUpdate(u: FieldUpdate)
    requires WellFormedUpdate(u)
    ensures var r := ParseUpdate(UpdateBytes(u)[1..]); r.Failed? || r.value != u
  {
    hide FromBigEndian, BigEndian;
    var all, n, m := UpdateBytes(u), |u.name|, |u.value|;
    var s := all[1..];
    var r := ParseUpdate(s);
    if r.Got? && r.value == u {
      assert |all| == 7 + n + m;
      assert ReadInto(s[2..], n).rest == s[2 + n..];
      var s3 := s[2 + n..][1..];
      assert s3 == s[3 + n..] && |s3| == 3 + m;
      var len := BigEndian(m, 4);
      assert all[3 + n..7 + n] == len && all[7 + n..] == u.value;
      assert m > 0;
      assert s3[..4] == len[1..] + [u.value[0]] by { assert s3 == all[4 + n..]; }
      assert s3[4..] == u.value[1..];
      assert Zeros(1) == [0];
      ShiftedIsZero(u.value);
      ShiftedLengthIsZero(m);
    }
  }

  lemma {:induction false} LateUpdates(us: seq<FieldUpdate>)
    requires us != [] && forall i :: 0 <= i < |us| ==> WellFormedUpdate(us[i])
    ensures var r := ParseUpdates(UpdatesBytes(us)[1..], |us|); r.Failed? || r.value != us
  {
    hide ParseUpdate, UpdateBytes, WellFormedUpdate;
    var u, rest := us[0], us[1..];
    var here, tail := UpdateBytes(u), UpdatesBytes(rest);
    UpdateLength(u);
    var s := (here + tail)[1..];
    var r := ParseUpdates(s, |us|);
    if r.Got? && r.value == us {
      assert ParseUpdate(s).Got? && ParseUpdate(s).value == u;
      if rest == [] {
        assert s == here[1..];
        LateUpdate(u);
      } else {
        UpdateLength(rest[0]);
        ParseTakes(s, u);
        assert s[|here|..] == tail[1..];
        assert ([u] + ParseUpdates(tail[1..], |rest|).value)[1..] == rest;
        LateUpdates(rest);
      }
    }
  }

  lemma UpdateLength(u: FieldUpdate)
    ensures |UpdateBytes(u)| == 7 + |u.name| + |u.value|
  {
  }

  lemma LateContent(fb: FieldBatch)
    requires WellFormed(fb)
    ensures ParseContent(Content(fb)[1..]) != Some(fb)
  {
    hide FromBigEndian, BigEndian, ParseUpdates, UpdatesBytes, WellFormedUpdate;
    var all, n := Content(fb), |fb.primaryKey|;
    var d, ups := all[1..], UpdatesBytes(fb.updates);
    if ParseContent(d) == Some(fb) {
      assert |all| == 12 + n + |ups|;
      assert ReadInto(d[4..][4..], n).rest == d[8 + n..];
      assert d[8 + n..][4..] == ups[1..] by { assert all[12 + n..] == ups; }
      NoUpdates();
      ParsedUpdatesFit(ups[1..], FromBigEndian(d[8 + n..][..4]));
      LateUpdates(fb.updates);
    }
  }

  lemma NoUpdates()
    ensures UpdatesBytes([]) == []
  {
  }

  /**
   * The same bytes without the version byte decode to the batch exactly when it is well formed
   * and its partition id does not itself start with a 1 byte, which is mistaken for the version.
   */
  lemma LegacyRoundTrip(fb: FieldBatch)
    ensures DecodeFieldBatch(Content(fb)) == Some(fb) <==> WellFormed(fb) && fb.partitionId / 0x100_0000 != 1
  {
    hide ParseContent;
    ParsedContentFits(Content(fb));
    ParsedContentFits(Content(fb)[1..]);
    if WellFormed(fb) {
      ContentRoundTrip(fb);
      LateContent(fb);
      FirstByte(fb.partitionId);
      assert Content(fb)[0] == BigEndian(fb.partitionId, 4)[0];
    }
  }

  lemma FirstByte(n: nat)
    requires n < TWO_32
    ensures BigEndian(n, 4)[0] == n / 0x100_0000
  {
    var a, b, c := n / 256, n / 256 / 256, n / 256 / 256 / 256;
    assert BigEndian(c, 1) == [c % 256] by { assert BigEndian(c / 256, 0) == []; }
    assert BigEndian(b, 2) == BigEndian(c, 1) + [b % 256];
    assert BigEndian(a, 3) == BigEndian(b, 2) + [a % 256];
  }

  /** A partition id that starts with a 1 byte is mistaken for a version: the legacy form is then lost, here as an error. */
  lemma LegacyConfusion()
    ensures var fb := FieldBatch(0x100_0000, [], []);
            WellFormed(fb) && DecodeFieldBatch(Content(fb)) == None
  {
    FirstByte(0x100_0000);
    var fb := FieldBatch(0x100_0000, [], []);
    assert |Content(fb)| == 12 && Content(fb)[0] == 1;
  }

  // ---- The loops ----

  method EncodeFieldBatch(fb: FieldBatch) returns (buf: Bytes)
    ensures buf == Versioned(fb)
  {
    hide UpdateBytes, BigEndian;
    buf := [FORMAT_VERSION];
    buf := buf + BigEndian(fb.partitionId, 4);
    buf := buf + BigEndian(|fb.primaryKey|, 4) + fb.primaryKey;
    buf := buf + BigEndian(|fb.updates|, 4);
    ghost var head := buf;
    for i := 0 to |fb.updates|
      invariant buf + UpdatesBytes(fb.updates[i..]) == head + UpdatesBytes(fb.updates)
    {
      UpdateAppend(fb.updates[i]);
      var u := fb.updates[i];
      ghost var before := buf;
      buf := buf + BigEndian(|u.name|, 2) + u.name;
      buf := buf + [if u.isDelete then 1 else 0];
      buf := buf + BigEndian(|u.value|, 4) + u.value;
      assert buf == before + UpdateBytes(u);
      assert fb.updates[i..][1..] == fb.updates[i + 1..];
      assert buf + UpdatesBytes(fb.updates[i + 1..]) == before + (UpdateBytes(u) + UpdatesBytes(fb.updates[i + 1..]));
    }
    assert fb.updates[|fb.updates|..] == [];
    assert buf + [] == buf;
    assert head + UpdatesBytes(fb.updates) == [FORMAT_VERSION] + Content(fb);
  }

  lemma UpdateAppend(u: FieldUpdate)
    ensures UpdateBytes(u) ==
            BigEndian(|u.name|, 2) + u.name + [if u.isDelete then 1 else 0] + BigEndian(|u.value|, 4) + u.value
  {
  }

  method DecodeUpdatesLoop(s: Bytes, count: nat) returns (r: Option<seq<FieldUpdate>>)
    ensures var p := ParseUpdates(s, count);
            r == if p.Failed? then None else Some(p.value)
  {
    hide ParseUpdate;
    assert ParseUpdates(s, count).Got? ==> [] + ParseUpdates(s, count).value == ParseUpdates(s, count).value;
    var updates: seq<FieldUpdate> := [];
    var left := s;
    for i := 0 to count
      invariant Joined(updates, ParseUpdates(left, count - i)) == Joined([], ParseUpdates(s, count))
    {
      var u := ParseUpdate(left);
      if u.Failed? {
        return None;
      }
      ghost var more := ParseUpdates(u.rest, count - i - 1);
      assert more.Got? ==> updates + ([u.value] + more.value) == updates + [u.value] + more.value;
      updates, left := updates + [u.value], u.rest;
    }
    assert updates + [] == updates;
    return Some(updates);
  }

  /** `decodeFieldBatchContent`, read by read. */
  method DecodeContent(s: Bytes) returns (r: Option<FieldBatch>)
    ensures r == ParseContent(s)
  {
    hide ParseUpdates, FromBigEndian;
    var partitionId := ReadUint(s, 4);
    if partitionId.Failed? {
      return None;
    }
    var pkLen := ReadUint(partitionId.rest, 4);
    if pkLen.Failed? {
      return None;
    }
    var pk := ReadInto(pkLen.rest, pkLen.value);
    if pk.Failed? {
      return None;
    }
    var count := ReadUint(pk.rest, 4);
    if count.Failed? {
      return None;
    }
    var updates := DecodeUpdatesLoop(count.rest, count.value);
    if updates.None? {
      return None;
    }
    return Some(FieldBatch(partitionId.value, pk.value, updates.value));
  }

  /** What the loop will return, given what it has and what is still to be parsed. */
  function Joined(done: seq<FieldUpdate>, todo: Parsed<seq<FieldUpdate>>): Option<seq<FieldUpdate>> {
    if todo.Failed? then None else Some(done + todo.value)
  }
}
