/** The on-disk form of one command-log entry, and what a reader recovers from a stretch of such bytes. */
module CommandCodec {
  import opened Bytes
  import opened Common

  /** CRC-32 is used only as a function of the bytes; everything below holds for every checksum. */
  type Checksum = Bytes -> u32

  const HEADER: nat := 25
  const FRAME: nat := 29

  const CMD_PUT: byte := 1
  const CMD_DELETE: byte := 2
  const CMD_FIELD_BATCH: byte := 3

  /** `timestamp` is the 64-bit pattern of the nanosecond clock. */
  datatype Entry = Entry(sequence: nat, timestamp: nat, cmdType: byte, key: Bytes, value: Bytes)

  function Size(e: Entry): nat {
    FRAME + |e.key| + |e.value|
  }

  /** Every field fits the width it is stored in. */
  predicate Fits(e: Entry) {
    e.sequence < TWO_64 && e.timestamp < TWO_64 && |e.key| < TWO_32 && |e.value| < TWO_32
  }

  function Header(e: Entry): (s: Bytes)
    ensures |s| == HEADER
  {
    BigEndian(e.sequence, 8) + BigEndian(e.timestamp, 8) + [e.cmdType] + BigEndian(|e.key|, 4) + BigEndian(|e.value|, 4)
  }

  function Body(e: Entry): Bytes {
    Header(e) + e.key + e.value
  }

  function Encoding(crc: Checksum, e: Entry): (s: Bytes)
    ensures |s| == Size(e)
  {
    Body(e) + BigEndian(crc(Body(e)), 4)
  }

  /** The entry whose header is `h` and whose key, value and checksum are read from `rest`. */
  function DecodeRest(crc: Checksum, h: Bytes, rest: Bytes): (r: Option<Entry>)
    requires |h| == HEADER
    ensures r.Some? ==> Size(r.value) <= HEADER + |rest|
  {
    var keyLen, valueLen := FromBigEndian(h[17..21]), FromBigEndian(h[21..25]);
    if |rest| < keyLen + valueLen + 4 then None else
    var key, value := rest[..keyLen], rest[keyLen..][..valueLen];
    if FromBigEndian(rest[keyLen..][valueLen..][..4]) != crc(h + key + value) then None else
    Some(Entry(FromBigEndian(h[0..8]), FromBigEndian(h[8..16]), h[16], key, value))
  }

  /** The entry at the front of `s`, or `None` on a short read or a checksum mismatch. */
  function Decode(crc: Checksum, s: Bytes): (r: Option<Entry>)
    ensures r.Some? ==> Size(r.value) <= |s|
  {
    if |s| < HEADER then None else DecodeRest(crc, s[..HEADER], s[HEADER..])
  }

  /** Where each field of a stored entry lies: numbers first, then key and value, and the checksum of all before it. */
  lemma EncodingLayout(crc: Checksum, e: Entry)
    requires Fits(e)
    ensures var s, k, v := Encoding(crc, e), |e.key|, |e.value|;
            && |s| == 29 + k + v
            && FromBigEndian(s[..8]) == e.sequence && FromBigEndian(s[8..16]) == e.timestamp && s[16] == e.cmdType
            && FromBigEndian(s[17..21]) == k && FromBigEndian(s[21..25]) == v
            && s[25..25 + k] == e.key && s[25 + k..25 + k + v] == e.value
            && FromBigEndian(s[25 + k + v..]) == crc(s[..25 + k + v])
  {
    hide FromBigEndian, BigEndian;
    Widths();
    var s, k, v := Encoding(crc, e), |e.key|, |e.value|;
    assert s[..8] == BigEndian(e.sequence, 8) && s[8..16] == BigEndian(e.timestamp, 8);
    assert s[17..21] == BigEndian(k, 4) && s[21..25] == BigEndian(v, 4);
    assert s[..25 + k + v] == Body(e) && s[25 + k + v..] == BigEndian(crc(Body(e)), 4);
    BigEndianRoundTrip(e.sequence, 8);
    BigEndianRoundTrip(e.timestamp, 8);
    BigEndianRoundTrip(k, 4);
    BigEndianRoundTrip(v, 4);
    BigEndianRoundTrip(crc(Body(e)), 4);
    assert FromBigEndian(s[25 + k + v..]) == crc(s[..25 + k + v]);
  }

  lemma DecodedFits(crc: Checksum, s: Bytes)
    ensures Decode(crc, s).Some? ==> Fits(Decode(crc, s).value)
  {
    if Decode(crc, s).Some? {
      Widths();
      var h := s[..HEADER];
      FromBigEndianBound(h[0..8]);
      FromBigEndianBound(h[8..16]);
      FromBigEndianBound(h[17..21]);
      FromBigEndianBound(h[21..25]);
    }
  }

  lemma HeaderFields(e: Entry)
    ensures var h := Header(e);
            && h[0..8] == BigEndian(e.sequence, 8) && h[8..16] == BigEndian(e.timestamp, 8) && h[16] == e.cmdType
            && h[17..21] == BigEndian(|e.key|, 4) && h[21..25] == BigEndian(|e.value|, 4)
  {
  }

  /**
   * Decoding an encoding, whatever follows it, gives the entry back exactly when its fields
   * fit their widths: `uint32(len(key))` silently truncates otherwise.
   */
  lemma EntryRoundTrip(crc: Checksum, e: Entry, rest: Bytes)
    ensures Decode(crc, Encoding(crc, e) + rest) == Some(e) <==> Fits(e)
  {
    var s := Encoding(crc, e) + rest;
    if Fits(e) {
      var stored := BigEndian(crc(Body(e)), 4);
      assert s[..HEADER] == Header(e);
      assert s[HEADER..] == e.key + e.value + stored + rest;
      DecodeFields(crc, e, s[HEADER..], rest);
    } else {
      DecodedFits(crc, s);
    }
  }

  lemma DecodeFields(crc: Checksum, e: Entry, tail: Bytes, rest: Bytes)
    requires Fits(e) && tail == e.key + e.value + BigEndian(crc(Body(e)), 4) + rest
    ensures DecodeRest(crc, Header(e), tail) == Some(e)
  {
    hide FromBigEndian, BigEndian, Header;
    Widths();
    HeaderFields(e);
    BigEndianRoundTrip(e.sequence, 8);
    BigEndianRoundTrip(e.timestamp, 8);
    BigEndianRoundTrip(|e.key|, 4);
    BigEndianRoundTrip(|e.value|, 4);
    BigEndianRoundTrip(crc(Body(e)), 4);
    assert tail[..|e.key|] == e.key;
    assert tail[|e.key|..] == e.value + BigEndian(crc(Body(e)), 4) + rest;
    assert tail[|e.key|..][..|e.value|] == e.value;
    assert tail[|e.key|..][|e.value|..] == BigEndian(crc(Body(e)), 4) + rest;
  }

  /** Nothing but an encoding decodes: the bytes consumed are the encoding of the entry returned. */
  lemma DecodedBytes(crc: Checksum, s: Bytes)
    requires Decode(crc, s).Some?
    ensures s[..Size(Decode(crc, s).value)] == Encoding(crc, Decode(crc, s).value)
  {
    hide FromBigEndian, BigEndian;
    Widths();
    var e := Decode(crc, s).value;
    var h, rest := s[..HEADER], s[HEADER..];
    FromBigEndianRoundTrip(h[0..8]);
    FromBigEndianRoundTrip(h[8..16]);
    FromBigEndianRoundTrip(h[17..21]);
    FromBigEndianRoundTrip(h[21..25]);
    assert Header(e) == h;
    var stored := rest[|e.key|..][|e.value|..][..4];
    FromBigEndianRoundTrip(stored);
    assert s[..Size(e)] == h + e.key + e.value + stored;
  }

  /** Decoding looks at the bytes of one entry only. */
  lemma DecodeLocal(crc: Checksum, s: Bytes, t: Bytes)
    requires s <= t
    ensures Decode(crc, s).Some? ==> Decode(crc, t) == Decode(crc, s)
    ensures Decode(crc, t).Some? && Size(Decode(crc, t).value) <= |s| ==> Decode(crc, s) == Decode(crc, t)
  {
    if Decode(crc, s).Some? {
      DecodeStable(crc, s, t);
    }
    if Decode(crc, t).Some? && Size(Decode(crc, t).value) <= |s| {
      DecodeStable(crc, t, s);
    }
  }

  lemma DecodeStable(crc: Checksum, s: Bytes, t: Bytes)
    requires Decode(crc, s).Some?
    requires Size(Decode(crc, s).value) <= |t|
    requires s[..Size(Decode(crc, s).value)] == t[..Size(Decode(crc, s).value)]
    ensures Decode(crc, t) == Decode(crc, s)
  {
    var e := Decode(crc, s).value;
    DecodedBytes(crc, s);
    DecodedFits(crc, s);
    EntryRoundTrip(crc, e, t[Size(e)..]);
    assert t == Encoding(crc, e) + t[Size(e)..];
  }

  /** What the read, replay and recovery loops see of one file: entries up to the first that does not decode. */
  function DecodeAll(crc: Checksum, s: Bytes): seq<Entry>
    decreases |s|
  {
    match Decode(crc, s)
    case None => []
    case Some(e) => [e] + DecodeAll(crc, s[Size(e)..])
  }

  function SizeAll(es: seq<Entry>): nat {
    if es == [] then 0 else SizeAll(es[..|es| - 1]) + Size(es[|es| - 1])
  }

  lemma {:induction false} SizeAllCons(e: Entry, es: seq<Entry>)
    ensures SizeAll([e] + es) == Size(e) + SizeAll(es)
  {
    if es == [] {
      assert [e] + es == [e] && [e][..0] == [];
    } else {
      SizeAllCons(e, es[..|es| - 1]);
      assert ([e] + es)[..|es|] == [e] + es[..|es| - 1];
    }
  }

  lemma {:induction false} SizeAllMonotone(es: seq<Entry>, i: nat, j: nat)
    requires i <= j <= |es|
    ensures SizeAll(es[..i]) <= SizeAll(es[..j])
    ensures i < j ==> SizeAll(es[..i]) < SizeAll(es[..j])
    decreases j
  {
    if i < j {
      SizeAllMonotone(es, i, j - 1);
      assert es[..j][..j - 1] == es[..j - 1];
    }
  }

  /** Decoding can resume at any entry boundary. */
  lemma {:induction false} DecodeAllFrom(crc: Checksum, s: Bytes, j: nat)
    requires j <= |DecodeAll(crc, s)|
    ensures SizeAll(DecodeAll(crc, s)[..j]) <= |s|
    ensures DecodeAll(crc, s[SizeAll(DecodeAll(crc, s)[..j])..]) == DecodeAll(crc, s)[j..]
    decreases |s|
  {
    hide Decode, DecodeRest;
    var es := DecodeAll(crc, s);
    if j > 0 {
      var rest := s[Size(es[0])..];
      DecodeAllFrom(crc, rest, j - 1);
      SizeAllCons(es[0], DecodeAll(crc, rest)[..j - 1]);
      assert es[..j] == [es[0]] + DecodeAll(crc, rest)[..j - 1];
      assert rest[SizeAll(DecodeAll(crc, rest)[..j - 1])..] == s[SizeAll(es[..j])..];
    } else {
      assert s[0..] == s;
    }
  }

  /** Cut anywhere, a file keeps exactly the entries whose whole encoding lies before the cut. */
  lemma {:induction false} DecodeAllCut(crc: Checksum, s: Bytes, cut: nat)
    requires cut <= |s|
    ensures DecodeAll(crc, s[..cut]) <= DecodeAll(crc, s)
    ensures forall j :: 0 <= j <= |DecodeAll(crc, s)| ==>
              (j <= |DecodeAll(crc, s[..cut])| <==> SizeAll(DecodeAll(crc, s)[..j]) <= cut)
    decreases |s|
  {
    hide Decode, DecodeRest;
    DecodeLocal(crc, s[..cut], s);
    var es, kept := DecodeAll(crc, s), DecodeAll(crc, s[..cut]);
    match Decode(crc, s) {
      case None =>
      case Some(e) =>
        var rest := s[Size(e)..];
        if Size(e) <= cut {
          DecodeAllCut(crc, rest, cut - Size(e));
          assert s[..cut][Size(e)..] == rest[..cut - Size(e)];
          forall j | 0 <= j <= |es| ensures j <= |kept| <==> SizeAll(es[..j]) <= cut {
            if j > 0 {
              SizeAllCons(e, DecodeAll(crc, rest)[..j - 1]);
              assert es[..j] == [e] + DecodeAll(crc, rest)[..j - 1];
            }
          }
        } else {
          forall j | 0 <= j <= |es| ensures j <= |kept| <==> SizeAll(es[..j]) <= cut {
            if j > 0 {
              SizeAllMonotone(es, 1, j);
              assert es[..1] == [e] && SizeAll([e]) == Size(e) by { assert [e][..0] == []; }
            }
          }
        }
    }
  }

  /** The bytes are a run of whole encodings with nothing after them. */
  predicate Whole(crc: Checksum, s: Bytes) {
    SizeAll(DecodeAll(crc, s)) == |s|
  }

  lemma DecodeAllStep(crc: Checksum, s: Bytes, e: Entry)
    requires Decode(crc, s) == Some(e)
    ensures DecodeAll(crc, s) == [e] + DecodeAll(crc, s[Size(e)..])
    ensures SizeAll(DecodeAll(crc, s)) == Size(e) + SizeAll(DecodeAll(crc, s[Size(e)..]))
  {
    SizeAllCons(e, DecodeAll(crc, s[Size(e)..]));
  }

  lemma DecodeAllOne(crc: Checksum, e: Entry)
    requires Fits(e)
    ensures DecodeAll(crc, Encoding(crc, e)) == [e]
  {
    EntryRoundTrip(crc, e, []);
    assert Encoding(crc, e) == Encoding(crc, e) + [];
    DecodeAllStep(crc, Encoding(crc, e), e);
    assert Encoding(crc, e)[Size(e)..] == [];
  }

  lemma {:induction false} DecodeAllAppend(crc: Checksum, s: Bytes, e: Entry)
    requires Whole(crc, s) && Fits(e)
    ensures DecodeAll(crc, s + Encoding(crc, e)) == DecodeAll(crc, s) + [e]
    ensures Whole(crc, s + Encoding(crc, e))
    decreases |s|
  {
    hide Decode, DecodeRest;
    var added := Encoding(crc, e);
    if Decode(crc, s).None? {
      assert s + added == added && DecodeAll(crc, s) == [];
      DecodeAllOne(crc, e);
      assert SizeAll([e]) == Size(e) by { assert [e][..0] == []; }
    } else {
      var first := Decode(crc, s).value;
      DecodeAllStep(crc, s, first);
      DecodeAllAppend(crc, s[Size(first)..], e);
      DecodeAllExtend(crc, s, first, added);
    }
  }

  lemma DecodeAllExtend(crc: Checksum, s: Bytes, first: Entry, added: Bytes)
    requires Decode(crc, s) == Some(first)
    ensures DecodeAll(crc, s + added) == [first] + DecodeAll(crc, s[Size(first)..] + added)
    ensures SizeAll(DecodeAll(crc, s + added)) == Size(first) + SizeAll(DecodeAll(crc, s[Size(first)..] + added))
  {
    hide Decode, DecodeRest;
    DecodeLocal(crc, s, s + added);
    DecodeAllStep(crc, s + added, first);
    assert (s + added)[Size(first)..] == s[Size(first)..] + added;
  }

  /** `io.Reader` over one open log file. */
  class Reader {
    const data: Bytes
    var pos: nat

    constructor (data: Bytes, pos: nat)
      ensures this.data == data && this.pos == pos
    {
      this.data := data;
      this.pos := pos;
    }

    /** The bytes still to read; seeking past the end of a file leaves none. */
    function Rest(): Bytes
      reads this
    {
      if pos <= |data| then data[pos..] else []
    }

    /** `io.ReadFull`. */
    method ReadFull(n: nat) returns (r: Option<Bytes>)
      modifies this
      ensures r == if n <= |old(Rest())| then Some(old(Rest())[..n]) else None
      ensures r.Some? ==> pos == old(pos) + n && Rest() == old(Rest())[n..]
    {
      if n == 0 {
        return Some([]);
      }
      if pos + n <= |data| {
        r := Some(data[pos..pos + n]);
        assert data[pos..][..n] == data[pos..pos + n];
        assert data[pos..][n..] == data[pos + n..];
        pos := pos + n;
      } else {
        r := None;
        pos := if pos <= |data| then |data| else pos;
      }
    }

    /** The value is read only when its length is not zero. */
    method ReadIfAny(n: nat) returns (r: Option<Bytes>)
      modifies this
      ensures r == if n <= |old(Rest())| then Some(old(Rest())[..n]) else None
      ensures r.Some? ==> pos == old(pos) + n && Rest() == old(Rest())[n..]
    {
      r := Some([]);
      if n > 0 {
        r := ReadFull(n);
      }
    }
  }

  /** `DecodeCommandEntry`: five reads, each of which may come up short. */
  method DecodeEntry(crc: Checksum, r: Reader) returns (e: Option<Entry>)
    modifies r
    ensures e == Decode(crc, old(r.Rest()))
    ensures e.Some? ==> r.Rest() == old(r.Rest())[Size(e.value)..] && r.pos == old(r.pos) + Size(e.value)
  {
    var header := r.ReadFull(HEADER);
    if header.None? {
      return None;
    }
    e := DecodeEntryRest(crc, header.value, r);
  }

  /** The part of `DecodeCommandEntry` after the header. */
  method DecodeEntryRest(crc: Checksum, h: Bytes, r: Reader) returns (e: Option<Entry>)
    requires |h| == HEADER
    modifies r
    ensures e == DecodeRest(crc, h, old(r.Rest()))
    ensures e.Some? ==>
              && r.Rest() == old(r.Rest())[Size(e.value) - HEADER..]
              && r.pos == old(r.pos) + Size(e.value) - HEADER
  {
    hide FromBigEndian;
    e := None;
    var keyLen, valueLen := FromBigEndian(h[17..21]), FromBigEndian(h[21..25]);
    ghost var rest := r.Rest();
    var key := r.ReadFull(keyLen);
    if key.Some? {
      var value := r.ReadIfAny(valueLen);
      if value.Some? {
        e := CheckEntry(crc, h, key.value, value.value, r);
        Drops(rest, keyLen, valueLen, 4);
      }
    }
  }

  lemma Drops(s: Bytes, a: nat, b: nat, c: nat)
    ensures a + b + c <= |s| ==> s[a..][b..][c..] == s[a + b + c..]
  {
  }

  /** The last read: the stored checksum. */
  method CheckEntry(crc: Checksum, h: Bytes, key: Bytes, value: Bytes, r: Reader) returns (e: Option<Entry>)
    requires |h| == HEADER
    modifies r
    ensures e == if |old(r.Rest())| < 4 || FromBigEndian(old(r.Rest())[..4]) != crc(h + key + value) then None
                 else Some(Entry(FromBigEndian(h[0..8]), FromBigEndian(h[8..16]), h[16], key, value))
    ensures e.Some? ==> r.Rest() == old(r.Rest())[4..] && r.pos == old(r.pos) + 4
  {
    hide FromBigEndian;
    var stored := r.ReadFull(4);
    if stored.None? || FromBigEndian(stored.value) != crc(h + key + value) {
      return None;
    }
    e := Some(Entry(FromBigEndian(h[0..8]), FromBigEndian(h[8..16]), h[16], key, value));
  }

  /** Write `src` into `buf` from `offset`, as `copy` and `PutUintNN` do. */
  method CopyInto(buf: array<byte>, offset: nat, src: Bytes)
    requires offset + |src| <= buf.Length
    modifies buf
    ensures buf[..] == old(buf[..offset]) + src + old(buf[offset + |src|..])
  {
    for i := 0 to |src|
      invariant buf[..offset] == old(buf[..offset])
      invariant buf[offset..offset + i] == src[..i]
      invariant buf[offset + |src|..] == old(buf[offset + |src|..])
    {
      buf[offset + i] := src[i];
      assert buf[offset..offset + i + 1] == buf[offset..offset + i] + [src[i]];
      assert src[..i + 1] == src[..i] + [src[i]];
    }
    assert src[..|src|] == src;
    assert buf[..] == buf[..offset] + buf[offset..offset + |src|] + buf[offset + |src|..];
  }

  /** `CommandEntry.Encode`: fill a buffer field by field, then checksum what is in it. */
  method EncodeEntry(crc: Checksum, e: Entry) returns (buf: array<byte>)
    ensures fresh(buf) && buf[..] == Encoding(crc, e)
  {
    buf := new byte[Size(e)];
    CopyInto(buf, 0, BigEndian(e.sequence, 8));
    CopyInto(buf, 8, BigEndian(e.timestamp, 8));
    CopyInto(buf, 16, [e.cmdType]);
    CopyInto(buf, 17, BigEndian(|e.key|, 4));
    CopyInto(buf, 21, BigEndian(|e.value|, 4));
    assert buf[..25] == Header(e);
    CopyInto(buf, 25, e.key);
    assert buf[..25] == Header(e);
    CopyInto(buf, 25 + |e.key|, e.value);
    var end := 25 + |e.key| + |e.value|;
    assert buf[..end] == Body(e);
    CopyInto(buf, end, BigEndian(crc(buf[..end]), 4));
  }
}
