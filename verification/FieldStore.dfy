/** Documents stored one field per key: key format, prefix scans and batched updates. */
module FieldStore {
  import opened Bytes
  import opened Common
  import opened KeySpace
  import opened FieldCodec

  /** ":f" */
  const FIELD_MARK: Bytes := [58, 102]

  /** `GetFieldPrefix`. */
  function FieldPrefix(pid: u32, pk: Bytes): (s: Bytes)
    ensures |s| == 12 + |pk|
  {
    RangeStart(pid) + (FIELD_MARK + BigEndian(|pk|, 4) + pk)
  }

  /** `FieldKey.Encode`. */
  function FieldKey(pid: u32, pk: Bytes, name: Bytes): Bytes {
    FieldPrefix(pid, pk) + name
  }

  /** A field key is the partition's prefix, ":f", the length of the primary key, the primary key, and the field's name. */
  lemma FieldKeyLayout(pid: u32, pk: Bytes, name: Bytes)
    requires |pk| < TWO_32
    ensures var s := FieldKey(pid, pk, name);
            && |s| == 12 + |pk| + |name| && s[0] == 112 && s[1] == 58 && FromBigEndian(s[2..6]) == pid
            && s[6] == 58 && s[7] == 102 && FromBigEndian(s[8..12]) == |pk|
            && s[12..12 + |pk|] == pk && s[12 + |pk|..] == name
  {
    hide BigEndian, FromBigEndian;
    Widths();
    var s := FieldKey(pid, pk, name);
    assert s[2..6] == BigEndian(pid, 4) && s[8..12] == BigEndian(|pk|, 4);
    BigEndianRoundTrip(pid, 4);
    BigEndianRoundTrip(|pk|, 4);
  }

  /** `Panics` stands for the slice `key[12:end]` with `end` below 12. */
  datatype ParsedKey = Malformed | Panics | Field(partitionId: nat, primaryKey: Bytes, name: Bytes)

  /** `DecodeFieldKey`; `12 + pkLen` is computed in 32 bits. */
  function DecodeFieldKey(key: Bytes): ParsedKey {
    if |key| < 12 then Malformed
    else if key[..2] != PARTITION_PREFIX || key[6..8] != FIELD_MARK then Malformed
    else
      var end := (12 + FromBigEndian(key[8..12])) % TWO_32;
      if |key| < end then Malformed
      else if end < 12 then Panics
      else Field(FromBigEndian(key[2..6]), key[12..end], key[end..])
  }

  /** The names of a document's fields: what follows its prefix in the keys that carry it. */
  function Names(db: Db, pid: u32, pk: Bytes): set<Bytes> {
    set k | k in db && FieldPrefix(pid, pk) <= k :: k[12 + |pk|..]
  }

  lemma NamesAreKeys(db: Db, pid: u32, pk: Bytes)
    ensures forall name :: name in Names(db, pid, pk) <==> FieldKey(pid, pk, name) in db
  {
    forall name ensures name in Names(db, pid, pk) <==> FieldKey(pid, pk, name) in db {
      var key := FieldKey(pid, pk, name);
      assert FieldPrefix(pid, pk) <= key && key[12 + |pk|..] == name;
      forall k | k in db && FieldPrefix(pid, pk) <= k && k[12 + |pk|..] == name ensures k == key {
        assert k == k[..12 + |pk|] + k[12 + |pk|..];
      }
    }
  }

  /** A document: what `GetField` finds under each name. */
  function Document(db: Db, pid: u32, pk: Bytes): map<Bytes, Bytes> {
    NamesAreKeys(db, pid, pk);
    map name | name in Names(db, pid, pk) :: db[FieldKey(pid, pk, name)]
  }

  lemma DocumentIsGetField(db: Db, pid: u32, pk: Bytes, name: Bytes)
    ensures name in Document(db, pid, pk) <==> FieldKey(pid, pk, name) in db
    ensures name in Document(db, pid, pk) ==> Document(db, pid, pk)[name] == db[FieldKey(pid, pk, name)]
  {
    NamesAreKeys(db, pid, pk);
  }

  lemma PrefixFields(pid: u32, pk: Bytes, key: Bytes)
    requires FieldPrefix(pid, pk) <= key
    ensures key[..2] == PARTITION_PREFIX && key[2..6] == BigEndian(pid, 4) && key[6..8] == FIELD_MARK
    ensures key[8..12] == BigEndian(|pk|, 4) && key[12..12 + |pk|] == pk
  {
    var p := FieldPrefix(pid, pk);
    assert p[..2] == PARTITION_PREFIX && p[2..6] == BigEndian(pid, 4) && p[6..8] == FIELD_MARK;
    assert p[8..12] == BigEndian(|pk|, 4) && p[12..] == pk;
    assert key[..2] == p[..2] && key[2..6] == p[2..6] && key[6..8] == p[6..8] && key[8..12] == p[8..12];
    assert key[12..12 + |pk|] == p[12..];
  }

  /** How a key found under a document's prefix parses: rightly up to a length, never rightly past it. */
  lemma KeyUnderPrefix(pid: u32, pk: Bytes, key: Bytes)
    requires FieldPrefix(pid, pk) <= key
    ensures |pk| < TWO_32 - 12 ==> DecodeFieldKey(key) == Field(pid, pk, key[12 + |pk|..])
    ensures |pk| >= TWO_32 - 12 ==>
              DecodeFieldKey(key).Panics? || (DecodeFieldKey(key).Field? && DecodeFieldKey(key).primaryKey != pk)
  {
    hide BigEndian, FromBigEndian;
    PrefixFields(pid, pk, key);
    Widths();
    BigEndianRoundTrip(pid, 4);
    BigEndianRoundTrip(|pk|, 4);
    FromBigEndianBound(key[8..12]);
  }

  /** A field key parses back to its parts exactly when its primary key is shorter than 2^32 - 12 bytes. */
  lemma FieldKeyRoundTrip(pid: u32, pk: Bytes, name: Bytes)
    ensures DecodeFieldKey(FieldKey(pid, pk, name)) == Field(pid, pk, name) <==> |pk| < TWO_32 - 12
  {
    KeyUnderPrefix(pid, pk, FieldKey(pid, pk, name));
    assert FieldKey(pid, pk, name)[12 + |pk|..] == name;
  }

  /** Length-prefixed documents never overlap, even when one primary key is a prefix of another. */
  lemma PrefixesDisjoint(pid: u32, pk: Bytes, pid': u32, pk': Bytes, key: Bytes)
    requires |pk| < TWO_32 && |pk'| < TWO_32
    requires FieldPrefix(pid, pk) <= key && FieldPrefix(pid', pk') <= key
    ensures pid == pid' && pk == pk'
  {
    hide BigEndian, FromBigEndian;
    PrefixFields(pid, pk, key);
    PrefixFields(pid', pk', key);
    Widths();
    BigEndianRoundTrip(pid, 4);
    BigEndianRoundTrip(pid', 4);
    BigEndianRoundTrip(|pk|, 4);
    BigEndianRoundTrip(|pk'|, 4);
  }

  lemma PrefixSplit(a: Bytes, s: Bytes, b: Bytes, k: Bytes)
    requires |a| == |b|
    ensures a + s <= b + k <==> a == b && s <= k
  {
    if a + s <= b + k {
      assert a == (a + s)[..|a|] == (b + k)[..|a|] == b;
      assert s == (a + s)[|a|..] && k == (b + k)[|a|..];
    }
  }

  lemma RangeStartInjective(pid: u32, pid': u32)
    ensures RangeStart(pid) == RangeStart(pid') <==> pid == pid'
  {
    Widths();
    BigEndianRoundTrip(pid, 4);
    BigEndianRoundTrip(pid', 4);
    assert RangeStart(pid)[2..] == BigEndian(pid, 4) && RangeStart(pid')[2..] == BigEndian(pid', 4);
  }

  /** A plain key lands inside a document exactly when it spells out the field marker, length and primary key. */
  lemma PlainKeyAliasesField(pid: u32, pk: Bytes, pid': u32, key: Bytes)
    ensures FieldPrefix(pid, pk) <= PartitionKey(pid', key) <==>
            pid == pid' && FIELD_MARK + BigEndian(|pk|, 4) + pk <= key
  {
    hide BigEndian, RangeStart;
    var suffix := FIELD_MARK + BigEndian(|pk|, 4) + pk;
    RangeStartInjective(pid, pid');
    PrefixSplit(RangeStart(pid), suffix, RangeStart(pid'), key);
  }

  datatype Scan = Panicked | Fields(fields: map<Bytes, Bytes>)

  /**
   * `GetAllFields`: seek to the document's prefix and stop at the first key without it. The
   * result is the whole document exactly when the primary key is shorter than 2^32 - 12 bytes
   * or there is nothing to find.
   */
  method GetAllFields(db: Database, pid: u32, pk: Bytes) returns (r: Scan)
    ensures r == Fields(Document(db.content, pid, pk)) <==> |pk| < TWO_32 - 12 || Document(db.content, pid, pk) == map[]
  {
    hide LexLess, BigEndian, FromBigEndian, FieldPrefix, DecodeFieldKey, Document, Among, Sorted;
    var prefix := FieldPrefix(pid, pk);
    var keys := db.Seek(prefix);
    var fields: map<Bytes, Bytes> := map[];
    var i := 0;
    NothingFound(db.content, keys, pid, pk);
    while i < |keys| && prefix <= keys[i]
      invariant i <= |keys|
      invariant forall j :: 0 <= j < i ==> prefix <= keys[j]
      invariant |pk| < TWO_32 - 12 ==> fields == Document(Among(db.content, keys[..i]), pid, pk)
      invariant |pk| >= TWO_32 - 12 ==> fields == map[]
    {
      KeyUnderPrefix(pid, pk, keys[i]);
      var fk := DecodeFieldKey(keys[i]);
      if fk.Panics? {
        NotEmpty(db.content, pid, pk, keys[i]);
        return Panicked;
      }
      if fk.Field? && fk.partitionId == pid && fk.primaryKey == pk {
        assert keys[i] in keys;
        OneMoreKey(db.content, pid, pk, keys, i);
        fields := fields[fk.name := db.content[keys[i]]];
      }
      i := i + 1;
    }
    ScanStops(db.content, pid, pk, keys, i);
    return Fields(fields);
  }

  /** The part of the database with these keys. */
  function Among(db: Db, keys: seq<Bytes>): Db {
    map k | k in db && k in keys :: db[k]
  }

  lemma NothingFound(db: Db, keys: seq<Bytes>, pid: u32, pk: Bytes)
    ensures Document(Among(db, keys[..0]), pid, pk) == map[]
  {
    assert Among(db, keys[..0]) == map[];
    assert Names(map[], pid, pk) == {};
  }

  lemma NotEmpty(db: Db, pid: u32, pk: Bytes, key: Bytes)
    requires FieldPrefix(pid, pk) <= key && key in db
    ensures Document(db, pid, pk) != map[]
  {
    assert key[12 + |pk|..] in Names(db, pid, pk);
    assert key[12 + |pk|..] in Document(db, pid, pk);
  }

  lemma OneMoreKey(db: Db, pid: u32, pk: Bytes, keys: seq<Bytes>, i: nat)
    requires i < |keys| && keys[i] in db && FieldPrefix(pid, pk) <= keys[i]
    ensures Document(Among(db, keys[..i + 1]), pid, pk) ==
            Document(Among(db, keys[..i]), pid, pk)[keys[i][12 + |pk|..] := db[keys[i]]]
  {
    hide FieldPrefix, Document;
    assert keys[..i + 1] == keys[..i] + [keys[i]];
    assert Among(db, keys[..i + 1]) == Among(db, keys[..i])[keys[i] := db[keys[i]]];
    KeyAdded(Among(db, keys[..i]), pid, pk, keys[i], db[keys[i]]);
  }

  lemma KeyAdded(db: Db, pid: u32, pk: Bytes, key: Bytes, value: Bytes)
    requires FieldPrefix(pid, pk) <= key
    ensures Document(db[key := value], pid, pk) == Document(db, pid, pk)[key[12 + |pk|..] := value]
  {
    hide FieldPrefix;
    var after, n := db[key := value], key[12 + |pk|..];
    NamesAreKeys(db, pid, pk);
    NamesAreKeys(after, pid, pk);
    assert FieldKey(pid, pk, n) == key;
    assert forall name :: FieldKey(pid, pk, name) == key ==> name == FieldKey(pid, pk, name)[12 + |pk|..] == n;
  }

  lemma ScanStops(db: Db, pid: u32, pk: Bytes, keys: seq<Bytes>, i: nat)
    requires Sorted(keys) && i <= |keys| && forall k :: k in keys <==> k in db && !LexLess(k, FieldPrefix(pid, pk))
    requires i < |keys| ==> !(FieldPrefix(pid, pk) <= keys[i])
    ensures Document(Among(db, keys[..i]), pid, pk) == Document(db, pid, pk)
    ensures i == 0 ==> Document(db, pid, pk) == map[]
  {
    var prefix := FieldPrefix(pid, pk);
    forall k | k in db && prefix <= k ensures k in keys[..i] {
      PrefixNotLess(prefix, k);
      var j :| 0 <= j < |keys| && keys[j] == k;
      if j >= i {
        assert keys[i] in keys;
        PrefixContiguous(prefix, k, keys[i]);
        LexTotal(k, keys[i]);
      }
      assert keys[..i][j] == k;
    }
    hide FieldPrefix, LexLess, Sorted;
    var found := Among(db, keys[..i]);
    assert Names(found, pid, pk) == Names(db, pid, pk) by {
      forall k | k in db && prefix <= k ensures k in found && found[k] == db[k] {
      }
    }
    NamesAreKeys(db, pid, pk);
    NamesAreKeys(found, pid, pk);
    if i == 0 {
      assert Names(found, pid, pk) == {};
    }
  }

  // ---- Batched updates ----

  /** One operation of a RocksDB write batch. */
  datatype Write = Write(key: Bytes, value: Option<Bytes>)

  function ApplyWrite(db: Db, w: Write): Db {
    if w.value.Some? then db[w.key := w.value.value] else db - {w.key}
  }

  /** A write batch takes effect in order. */
  function ApplyWrites(db: Db, ws: seq<Write>): Db {
    if ws == [] then db else ApplyWrite(ApplyWrites(db, ws[..|ws| - 1]), ws[|ws| - 1])
  }

  function UpdateWrite(pid: u32, pk: Bytes, u: FieldUpdate): Write {
    Write(FieldKey(pid, pk, u.name), if u.isDelete then None else Some(u.value))
  }

  function BatchWrites(pid: u32, fb: FieldBatch): (ws: seq<Write>)
    ensures |ws| == |fb.updates|
    ensures forall i :: 0 <= i < |ws| ==> ws[i] == UpdateWrite(pid, fb.primaryKey, fb.updates[i])
  {
    seq(|fb.updates|, i requires 0 <= i < |fb.updates| => UpdateWrite(pid, fb.primaryKey, fb.updates[i]))
  }

  /** `ApplyFieldBatch`: build the batch update by update, then write it. */
  method ApplyFieldBatch(db: Database, pid: u32, fb: FieldBatch)
    modifies db
    ensures db.content == ApplyWrites(old(db.content), BatchWrites(pid, fb))
  {
    hide FieldKey;
    var batch: seq<Write> := [];
    for i := 0 to |fb.updates|
      invariant batch == BatchWrites(pid, fb)[..i]
    {
      var key := FieldKey(pid, fb.primaryKey, fb.updates[i].name);
      if fb.updates[i].isDelete {
        batch := batch + [Write(key, None)];
      } else {
        batch := batch + [Write(key, Some(fb.updates[i].value))];
      }
    }
    assert batch == BatchWrites(pid, fb);
    for i := 0 to |batch|
      invariant db.content == ApplyWrites(old(db.content), batch[..i])
    {
      assert batch[..i + 1][..i] == batch[..i];
      db.content := ApplyWrite(db.content, batch[i]);
    }
    assert batch[..|batch|] == batch;
  }

  /** What the last update naming a field makes of it. */
  function FieldAfter(us: seq<FieldUpdate>, name: Bytes, before: Option<Bytes>): Option<Bytes> {
    if us == [] then before
    else if us[|us| - 1].name == name then (if us[|us| - 1].isDelete then None else Some(us[|us| - 1].value))
    else FieldAfter(us[..|us| - 1], name, before)
  }

  /** Spelled out: a field has what the last update naming it says, a delete leaving nothing; one that none names keeps its value. */
  lemma {:induction false} LastUpdateWins(us: seq<FieldUpdate>, name: Bytes, before: Option<Bytes>, i: int)
    requires -1 <= i < |us| && (i >= 0 ==> us[i].name == name) && forall j :: i < j < |us| ==> us[j].name != name
    ensures FieldAfter(us, name, before) ==
            if i < 0 then before else if us[i].isDelete then None else Some(us[i].value)
  {
    if i < |us| - 1 {
      LastUpdateWins(us[..|us| - 1], name, before, i);
    }
  }

  function Lookup(m: map<Bytes, Bytes>, k: Bytes): Option<Bytes> {
    if k in m then Some(m[k]) else None
  }

  /** A key has what the last write naming it says; one that none names keeps its value. */
  lemma {:induction false} LastWriteWins(db: Db, ws: seq<Write>, k: Bytes, i: int)
    requires -1 <= i < |ws| && (i >= 0 ==> ws[i].key == k) && forall j :: i < j < |ws| ==> ws[j].key != k
    ensures Lookup(ApplyWrites(db, ws), k) == if i < 0 then Lookup(db, k) else ws[i].value
  {
    if i < |ws| - 1 {
      LastWriteWins(db, ws[..|ws| - 1], k, i);
    }
  }

  lemma {:induction false} ApplyConcat(db: Db, a: seq<Write>, b: seq<Write>)
    ensures ApplyWrites(db, a + b) == ApplyWrites(ApplyWrites(db, a), b)
  {
    if b == [] {
      assert a + b == a;
    } else {
      ApplyConcat(db, a, b[..|b| - 1]);
      assert (a + b)[..|a + b| - 1] == a + b[..|b| - 1];
    }
  }

  lemma SameLookups(r: Db, s: Db)
    requires forall x :: Lookup(r, x) == Lookup(s, x)
    ensures r == s
  {
    assert forall x :: x in r <==> Lookup(r, x).Some?;
    assert forall x :: x in s <==> Lookup(s, x).Some?;
    forall x | x in r ensures x in s && r[x] == s[x] {
      assert Lookup(r, x) == Lookup(s, x);
    }
  }

  /**
   * On its own document a batch is last-update-wins, field by field; every other document,
   * of this or another partition, is left as it was.
   */
  lemma BatchEffect(db: Db, pid: u32, fb: FieldBatch, pid': u32, pk': Bytes, name: Bytes)
    requires |fb.primaryKey| < TWO_32 && |pk'| < TWO_32
    ensures var after := ApplyWrites(db, BatchWrites(pid, fb));
            Lookup(Document(after, pid', pk'), name) ==
            if pid' == pid && pk' == fb.primaryKey
            then FieldAfter(fb.updates, name, Lookup(Document(db, pid', pk'), name))
            else Lookup(Document(db, pid', pk'), name)
  {
    var after := ApplyWrites(db, BatchWrites(pid, fb));
    DocumentIsGetField(db, pid', pk', name);
    DocumentIsGetField(after, pid', pk', name);
    BatchKeyEffect(db, pid, fb.primaryKey, fb.updates, pid', pk', name);
    assert BatchWrites(pid, fb) == BatchWrites(pid, FieldBatch(0, fb.primaryKey, fb.updates));
  }

  lemma {:induction false} BatchKeyEffect(db: Db, pid: u32, pk: Bytes, us: seq<FieldUpdate>, pid': u32, pk': Bytes,
                                          name: Bytes)
    requires |pk| < TWO_32 && |pk'| < TWO_32
    ensures var key, after := FieldKey(pid', pk', name), ApplyWrites(db, BatchWrites(pid, FieldBatch(0, pk, us)));
            Lookup(after, key) ==
            if pid' == pid && pk' == pk then FieldAfter(us, name, Lookup(db, key)) else Lookup(db, key)
    decreases |us|
  {
    hide FieldPrefix, BigEndian;
    if us != [] {
      var last := us[|us| - 1];
      BatchKeyEffect(db, pid, pk, us[..|us| - 1], pid', pk', name);
      var ws := BatchWrites(pid, FieldBatch(0, pk, us));
      assert ws[..|ws| - 1] == BatchWrites(pid, FieldBatch(0, pk, us[..|us| - 1]));
      var key, written := FieldKey(pid', pk', name), FieldKey(pid, pk, last.name);
      assert key == written <==> pid' == pid && pk' == pk && name == last.name by {
        if key == written {
          PrefixesDisjoint(pid, pk, pid', pk', key);
          assert key[12 + |pk|..] == name && written[12 + |pk|..] == last.name;
        }
      }
    }
  }
}
