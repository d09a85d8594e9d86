/** A client batch split by partition and written group by group, against writing its items one by one. */
module BatchWrite {
  import opened Bytes
  import opened Common
  import opened KeySpace
  import opened FieldStore

  /** xxhash of a key, used only as a function; and the node each partition is routed to during the call. */
  type KeyHash = Bytes -> nat
  type Routes = u32 -> string

  datatype Item = Item(key: Bytes, value: Bytes)

  function PartitionOf(hash: KeyHash, key: Bytes): u32 {
    hash(key) % TOTAL_PARTITIONS
  }

  /** The items of one partition, in request order. */
  function Group(hash: KeyHash, items: seq<Item>, pid: u32): seq<Item> {
    if items == [] then []
    else Group(hash, items[..|items| - 1], pid) +
         (if PartitionOf(hash, items[|items| - 1].key) == pid then [items[|items| - 1]] else [])
  }

  /** Where an item is stored. */
  function StorageKey(hash: KeyHash, key: Bytes): Bytes {
    PartitionKey(PartitionOf(hash, key), key)
  }

  /** What reaches node `n` when the items are written in this order. */
  function WritesAt(hash: KeyHash, route: Routes, n: string, items: seq<Item>): seq<Write> {
    if items == [] then []
    else
      var last := items[|items| - 1];
      WritesAt(hash, route, n, items[..|items| - 1]) +
      (if route(PartitionOf(hash, last.key)) == n then [Write(StorageKey(hash, last.key), Some(last.value))] else [])
  }

  /** The groups one after the other. */
  function Regrouped(hash: KeyHash, items: seq<Item>, order: seq<u32>): seq<Item> {
    if order == [] then [] else Regrouped(hash, items, order[..|order| - 1]) + Group(hash, items, order[|order| - 1])
  }

  /** The last value an order of writes gives a key. */
  function LastValue(items: seq<Item>, key: Bytes): Option<Bytes> {
    if items == [] then None
    else if items[|items| - 1].key == key then Some(items[|items| - 1].value)
    else LastValue(items[..|items| - 1], key)
  }

  lemma {:induction false} LastValueConcat(a: seq<Item>, b: seq<Item>, key: Bytes)
    ensures LastValue(a + b, key) == if LastValue(b, key).Some? then LastValue(b, key) else LastValue(a, key)
  {
    if b == [] {
      assert a + b == a;
    } else {
      LastValueConcat(a, b[..|b| - 1], key);
      assert (a + b)[..|a + b| - 1] == a + b[..|b| - 1];
    }
  }

  lemma {:induction false} LastValueInGroup(hash: KeyHash, items: seq<Item>, pid: u32, key: Bytes)
    ensures LastValue(Group(hash, items, pid), key) == if PartitionOf(hash, key) == pid then LastValue(items, key) else None
  {
    if items != [] {
      var init, last := items[..|items| - 1], items[|items| - 1];
      LastValueInGroup(hash, init, pid, key);
      LastValueConcat(Group(hash, init, pid), if PartitionOf(hash, last.key) == pid then [last] else [], key);
      assert [last][..0] == [];
    }
  }

  lemma {:induction false} LastValueRegrouped(hash: KeyHash, items: seq<Item>, order: seq<u32>, key: Bytes)
    ensures LastValue(Regrouped(hash, items, order), key) ==
            if PartitionOf(hash, key) in order then LastValue(items, key) else None
  {
    if order != [] {
      var init, last := order[..|order| - 1], order[|order| - 1];
      LastValueRegrouped(hash, items, init, key);
      LastValueInGroup(hash, items, last, key);
      LastValueConcat(Regrouped(hash, items, init), Group(hash, items, last), key);
      assert order == init + [last];
    }
  }

  /** `x` is the place of some client key on node `n`; the key is what follows the partition prefix. */
  predicate IsPlace(hash: KeyHash, route: Routes, n: string, x: Bytes) {
    |x| >= 6 && x == StorageKey(hash, x[6..]) && route(PartitionOf(hash, x[6..])) == n
  }

  /** After a run of puts a place holds the last value given to its key, everything else what it held. */
  lemma {:induction false} PutsEffect(hash: KeyHash, route: Routes, n: string, db: Db, items: seq<Item>, x: Bytes)
    ensures Lookup(ApplyWrites(db, WritesAt(hash, route, n, items)), x) ==
            if IsPlace(hash, route, n, x) && LastValue(items, x[6..]).Some? then LastValue(items, x[6..])
            else Lookup(db, x)
  {
    if items != [] {
      hide RangeStart, ApplyWrites, Lookup;
      var init, last := items[..|items| - 1], items[|items| - 1];
      PutsEffect(hash, route, n, db, init, x);
      var key := StorageKey(hash, last.key);
      assert |key| >= 6 && key[6..] == last.key;
      var before, w := WritesAt(hash, route, n, init), Write(key, Some(last.value));
      if route(PartitionOf(hash, last.key)) == n {
        ApplyOneMore(db, before, w, x);
      } else {
        assert before + [] == before;
      }
    }
  }

  lemma ApplyOneMore(db: Db, ws: seq<Write>, w: Write, x: Bytes)
    ensures Lookup(ApplyWrites(db, ws + [w]), x) == if x == w.key then w.value else Lookup(ApplyWrites(db, ws), x)
  {
    assert (ws + [w])[..|ws|] == ws;
  }

  lemma SameEffect(hash: KeyHash, route: Routes, n: string, db: Db, a: seq<Item>, b: seq<Item>)
    requires forall key :: LastValue(a, key) == LastValue(b, key)
    ensures ApplyWrites(db, WritesAt(hash, route, n, a)) == ApplyWrites(db, WritesAt(hash, route, n, b))
  {
    hide ApplyWrites, WritesAt, LastValue, StorageKey, Lookup;
    var r, s := ApplyWrites(db, WritesAt(hash, route, n, a)), ApplyWrites(db, WritesAt(hash, route, n, b));
    forall x ensures Lookup(r, x) == Lookup(s, x) {
      PutsEffect(hash, route, n, db, a, x);
      PutsEffect(hash, route, n, db, b, x);
      if |x| >= 6 {
        assert LastValue(a, x[6..]) == LastValue(b, x[6..]);
      }
    }
    SameLookups(r, s);
  }

  /** The items whose partition is among those written. */
  function Surviving(hash: KeyHash, items: seq<Item>, written: seq<u32>): seq<Item> {
    if items == [] then []
    else Surviving(hash, items[..|items| - 1], written) +
         (if PartitionOf(hash, items[|items| - 1].key) in written then [items[|items| - 1]] else [])
  }

  lemma {:induction false} LastValueSurviving(hash: KeyHash, items: seq<Item>, written: seq<u32>, key: Bytes)
    ensures LastValue(Surviving(hash, items, written), key) ==
            if PartitionOf(hash, key) in written then LastValue(items, key) else None
  {
    if items != [] {
      var init, last := items[..|items| - 1], items[|items| - 1];
      LastValueSurviving(hash, init, written, key);
      LastValueConcat(Surviving(hash, init, written), if PartitionOf(hash, last.key) in written then [last] else [], key);
      assert [last][..0] == [];
    }
  }

  /**
   * Writing groups in any order leaves every node as if the items of those groups had been
   * written one by one in request order, repeated keys included.
   */
  lemma GroupingIsSequential(hash: KeyHash, route: Routes, n: string, db: Db, items: seq<Item>, order: seq<u32>)
    ensures ApplyWrites(db, WritesAt(hash, route, n, Regrouped(hash, items, order))) ==
            ApplyWrites(db, WritesAt(hash, route, n, Surviving(hash, items, order)))
  {
    forall key ensures LastValue(Regrouped(hash, items, order), key) == LastValue(Surviving(hash, items, order), key) {
      LastValueRegrouped(hash, items, order, key);
      LastValueSurviving(hash, items, order, key);
    }
    SameEffect(hash, route, n, db, Regrouped(hash, items, order), Surviving(hash, items, order));
  }

  /** With every group written nothing is left out. */
  lemma {:induction false} AllSurvive(hash: KeyHash, items: seq<Item>, written: seq<u32>)
    requires forall pid :: Group(hash, items, pid) != [] ==> pid in written
    ensures Surviving(hash, items, written) == items
  {
    if items != [] {
      var init, last := items[..|items| - 1], items[|items| - 1];
      forall pid | Group(hash, init, pid) != [] ensures pid in written {
        assert Group(hash, items, pid) != [];
      }
      AllSurvive(hash, init, written);
      assert Group(hash, items, PartitionOf(hash, last.key)) != [];
    }
  }

  // ---- Counting ----

  /** 32-bit signed wrap-around of the item count. */
  function Wrap(n: int): int {
    var m := n % TWO_32;
    if m < TWO_32 / 2 then m else m - TWO_32
  }

  lemma WrapAdds(a: int, b: int)
    ensures Wrap(Wrap(a) + b) == Wrap(a + b)
  {
    var m := a % TWO_32;
    assert a == TWO_32 * (a / TWO_32) + m;
    Shift(m + b, a / TWO_32);
    Shift(m + b, -1);
  }

  lemma Shift(n: int, k: int)
    ensures (n + TWO_32 * k) % TWO_32 == n % TWO_32
  {
  }

  /** The groups are as long together as the items they hold. */
  lemma {:induction false} RegroupedLength(hash: KeyHash, items: seq<Item>, order: seq<u32>)
    requires Distinct(order)
    ensures |Regrouped(hash, items, order)| == |Surviving(hash, items, order)|
  {
    if order == [] {
      NoneSurvive(hash, items);
    } else {
      var init, last := order[..|order| - 1], order[|order| - 1];
      RegroupedLength(hash, items, init);
      OneMoreGroup(hash, items, init, last);
      assert order == init + [last];
    }
  }

  lemma {:induction false} NoneSurvive(hash: KeyHash, items: seq<Item>)
    ensures Surviving(hash, items, []) == []
  {
    if items != [] {
      NoneSurvive(hash, items[..|items| - 1]);
    }
  }

  lemma {:induction false} OneMoreGroup(hash: KeyHash, items: seq<Item>, order: seq<u32>, pid: u32)
    requires pid !in order
    ensures |Surviving(hash, items, order + [pid])| == |Surviving(hash, items, order)| + |Group(hash, items, pid)|
  {
    if items != [] {
      OneMoreGroup(hash, items[..|items| - 1], order, pid);
    }
  }

  // ---- The call ----

  lemma GroupStays(hash: KeyHash, items: seq<Item>, pid: u32)
    ensures forall i :: 0 <= i < |Group(hash, items, pid)| ==> PartitionOf(hash, Group(hash, items, pid)[i].key) == pid
  {
  }

  /** The storage node's batch: the items under the partition's prefix, in order. */
  function PutsOf(pid: u32, items: seq<Item>): seq<Write> {
    seq(|items|, i requires 0 <= i < |items| => Write(PartitionKey(pid, items[i].key), Some(items[i].value)))
  }

  lemma {:induction false} GroupWrites(hash: KeyHash, route: Routes, n: string, items: seq<Item>, pid: u32)
    requires forall i :: 0 <= i < |items| ==> PartitionOf(hash, items[i].key) == pid
    ensures WritesAt(hash, route, n, items) == if route(pid) == n then PutsOf(pid, items) else []
  {
    if items != [] {
      GroupWrites(hash, route, n, items[..|items| - 1], pid);
    }
  }

  lemma {:induction false} WritesConcat(hash: KeyHash, route: Routes, n: string, a: seq<Item>, b: seq<Item>)
    ensures WritesAt(hash, route, n, a + b) == WritesAt(hash, route, n, a) + WritesAt(hash, route, n, b)
  {
    if b == [] {
      assert a + b == a;
    } else {
      WritesConcat(hash, route, n, a, b[..|b| - 1]);
      assert (a + b)[..|a + b| - 1] == a + b[..|b| - 1];
    }
  }

  /** One more group written: its node takes the group's puts, the others nothing. */
  lemma GroupLands(hash: KeyHash, route: Routes, n: string, db: Db, items: seq<Item>, order: seq<u32>, pid: u32)
    ensures ApplyWrites(db, WritesAt(hash, route, n, Regrouped(hash, items, order + [pid]))) ==
            var before := ApplyWrites(db, WritesAt(hash, route, n, Regrouped(hash, items, order)));
            if route(pid) == n then ApplyWrites(before, PutsOf(pid, Group(hash, items, pid))) else before
    ensures |Regrouped(hash, items, order + [pid])| == |Regrouped(hash, items, order)| + |Group(hash, items, pid)|
  {
    hide WritesAt, PutsOf;
    var group := Group(hash, items, pid);
    assert (order + [pid])[..|order|] == order;
    GroupStays(hash, items, pid);
    GroupWrites(hash, route, n, group, pid);
    WritesConcat(hash, route, n, Regrouped(hash, items, order), group);
    ApplyConcat(db, WritesAt(hash, route, n, Regrouped(hash, items, order)), WritesAt(hash, route, n, group));
  }

  /** The databases after the groups in `order` have been written. */
  ghost predicate Reached(was: map<string, Db>, now: map<string, Db>, hash: KeyHash, route: Routes, items: seq<Item>, order: seq<u32>) {
    && now.Keys == was.Keys
    && forall n :: n in now ==> now[n] == ApplyWrites(was[n], WritesAt(hash, route, n, Regrouped(hash, items, order)))
  }

  lemma ReachesOneMore(was: map<string, Db>, now: map<string, Db>, hash: KeyHash, route: Routes, items: seq<Item>,
                       order: seq<u32>, pid: u32)
    requires Reached(was, now, hash, route, items, order) && route(pid) in now
    ensures var node := route(pid);
            Reached(was, now[node := ApplyWrites(now[node], PutsOf(pid, Group(hash, items, pid)))], hash, route, items, order + [pid])
  {
    hide ApplyWrites, WritesAt, Regrouped, PutsOf, Group;
    forall n | n in now {
      GroupLands(hash, route, n, was[n], items, order, pid);
    }
  }

  lemma ReachedIsSequential(was: map<string, Db>, now: map<string, Db>, hash: KeyHash, route: Routes, items: seq<Item>,
                            order: seq<u32>, n: string)
    requires Reached(was, now, hash, route, items, order) && n in now
    ensures now[n] == ApplyWrites(was[n], WritesAt(hash, route, n, Surviving(hash, items, order)))
  {
    GroupingIsSequential(hash, route, n, was[n], items, order);
  }

  method GroupByPartition(hash: KeyHash, items: seq<Item>) returns (groups: map<u32, seq<Item>>)
    ensures forall pid :: pid in groups <==> Group(hash, items, pid) != []
    ensures forall pid :: pid in groups ==> groups[pid] == Group(hash, items, pid)
    ensures ByHash(hash, items, groups)
  {
    groups := map[];
    var i := 0;
    while i < |items|
      invariant 0 <= i <= |items|
      invariant forall pid :: pid in groups <==> Group(hash, items[..i], pid) != []
      invariant forall pid :: pid in groups ==> groups[pid] == Group(hash, items[..i], pid)
    {
      var pid := PartitionOf(hash, items[i].key);
      assert items[..i + 1][..i] == items[..i];
      groups := groups[pid := (if pid in groups then groups[pid] else []) + [items[i]]];
      i := i + 1;
    }
    assert items[..i] == items;
    GroupedByHash(hash, items, groups);
  }

  /** Every item is in the group its key hashes to, one of 4096, and nothing else is. */
  ghost predicate ByHash(hash: KeyHash, items: seq<Item>, groups: map<u32, seq<Item>>) {
    && (forall x :: x in items ==> hash(x.key) % 4096 in groups && x in groups[hash(x.key) % 4096])
    && (forall pid, x :: pid in groups && x in groups[pid] ==> x in items && hash(x.key) % 4096 == pid)
  }

  lemma GroupedByHash(hash: KeyHash, items: seq<Item>, groups: map<u32, seq<Item>>)
    requires forall pid :: pid in groups <==> Group(hash, items, pid) != []
    requires forall pid :: pid in groups ==> groups[pid] == Group(hash, items, pid)
    ensures ByHash(hash, items, groups)
  {
    hide Group;
    forall x | x in items ensures hash(x.key) % 4096 in groups && x in groups[hash(x.key) % 4096] {
      InGroup(hash, items, hash(x.key) % 4096, x);
    }
    forall pid, x | pid in groups && x in groups[pid] ensures x in items && hash(x.key) % 4096 == pid {
      InGroup(hash, items, pid, x);
    }
  }

  lemma {:induction false} InGroup(hash: KeyHash, items: seq<Item>, pid: u32, x: Item)
    ensures x in Group(hash, items, pid) <==> x in items && hash(x.key) % 4096 == pid
  {
    if items != [] {
      InGroup(hash, items[..|items| - 1], pid, x);
      assert items == items[..|items| - 1] + [items[|items| - 1]];
    }
  }

  lemma DistinctExtends(s: seq<u32>, x: u32)
    requires Distinct(s) && x !in s
    ensures Distinct(s + [x])
  {
  }

  /** The databases of the storage nodes, by address. */
  class Cluster {
    var dbs: map<string, Db>

    /** `PartitionManager.BatchPut` on the primary. */
    method WriteGroup(node: string, pid: u32, items: seq<Item>)
      requires node in dbs
      modifies this
      ensures dbs == old(dbs)[node := ApplyWrites(old(dbs)[node], PutsOf(pid, items))]
    {
      var batch: seq<Write> := [];
      var i := 0;
      while i < |items|
        invariant 0 <= i <= |items|
        invariant batch == PutsOf(pid, items[..i])
      {
        batch := batch + [Write(PartitionKey(pid, items[i].key), Some(items[i].value))];
        i := i + 1;
      }
      assert items[..i] == items;
      dbs := dbs[node := ApplyWrites(dbs[node], batch)];
    }

    /** One group: its node takes it whole and the count grows by its length. */
    method SendGroup(ghost was: map<string, Db>, ghost hash: KeyHash, route: Routes, ghost items: seq<Item>,
                     ghost order: seq<u32>, pid: u32, group: seq<Item>, count: int)
      returns (total: int)
      requires Reached(was, dbs, hash, route, items, order) && route(pid) in dbs && group == Group(hash, items, pid)
      modifies this
      ensures dbs.Keys == was.Keys && Reached(was, dbs, hash, route, items, order + [pid])
      ensures count == Wrap(|Regrouped(hash, items, order)|) ==> total == Wrap(|Regrouped(hash, items, order + [pid])|)
    {
      hide ApplyWrites, WritesAt, Regrouped, Group, PutsOf, Wrap;
      ReachesOneMore(was, dbs, hash, route, items, order, pid);
      GroupLands(hash, route, route(pid), map[], items, order, pid);
      WrapAdds(|Regrouped(hash, items, order)|, |group|);
      WriteGroup(route(pid), pid, group);
      total := Wrap(count + |group|);
    }

    /**
     * Sends the groups in any order and counts the items of those whose call succeeds. A group in
     * `fails` comes back as an error; one of them that is in `late` was applied all the same, its
     * answer lost or too late.
     */
    method SendGroups(ghost hash: KeyHash, route: Routes, ghost items: seq<Item>, groups: map<u32, seq<Item>>,
                      fails: set<u32>, late: set<u32>)
      returns (total: int, failed: bool, ghost written: seq<u32>)
      requires forall pid :: pid in groups ==> groups[pid] == Group(hash, items, pid)
      modifies this
      ensures Distinct(written) && Reached(old(dbs), dbs, hash, route, items, written)
      ensures forall pid :: pid in written <==> pid in groups && (pid !in fails || pid in late) && route(pid) in old(dbs)
      ensures !failed ==> total == Wrap(|Regrouped(hash, items, written)|)
      ensures failed <==> exists pid :: pid in groups && (pid in fails || route(pid) !in old(dbs))
    {
      total, failed, written := 0, false, [];
      assert Reached(old(dbs), dbs, hash, route, items, written) && Wrap(|Regrouped(hash, items, written)|) == 0;
      hide Reached, ApplyWrites, WritesAt, Regrouped, Group, PutsOf, Wrap, Distinct;
      var todo := groups.Keys;
      ghost var refused: set<u32> := {};
      while todo != {}
        invariant todo <= groups.Keys
        invariant Distinct(written)
        invariant forall pid :: pid in written <==>
                    pid in groups && pid !in todo && (pid !in fails || pid in late) && route(pid) in old(dbs)
        invariant dbs.Keys == old(dbs).Keys && Reached(old(dbs), dbs, hash, route, items, written)
        invariant !failed ==> total == Wrap(|Regrouped(hash, items, written)|)
        invariant forall pid :: pid in refused <==> pid in groups && pid !in todo && (pid in fails || route(pid) !in old(dbs))
        invariant failed <==> refused != {}
        decreases todo
      {
        var pid :| pid in todo;
        var node := route(pid);
        if node in dbs && (pid !in fails || pid in late) {
          var t := SendGroup(old(dbs), hash, route, items, written, pid, groups[pid], total);
          DistinctExtends(written, pid);
          written := written + [pid];
          if pid !in fails {
            total := t;
          }
        }
        if pid in fails || node !in dbs {
          failed, refused := true, refused + {pid};
        }
        todo := todo - {pid};
      }
    }

    /**
     * Every node ends up as if the items of the groups that were applied, successful or not, had
     * been written one by one in request order. The count comes back exactly when no group failed,
     * and is then the number of items.
     */
    method BatchPut(hash: KeyHash, route: Routes, items: seq<Item>, fails: set<u32>, late: set<u32>)
      returns (count: Option<int>, ghost written: seq<u32>)
      modifies this
      ensures forall pid :: pid in written <==>
                Group(hash, items, pid) != [] && (pid !in fails || pid in late) && route(pid) in old(dbs)
      ensures dbs.Keys == old(dbs).Keys
      ensures forall n :: n in dbs ==> dbs[n] == ApplyWrites(old(dbs)[n], WritesAt(hash, route, n, Surviving(hash, items, written)))
      ensures count.Some? <==> forall pid :: Group(hash, items, pid) != [] ==> pid !in fails && route(pid) in old(dbs)
      ensures count.Some? ==> count.value == Wrap(|items|) && Surviving(hash, items, written) == items
      ensures count.Some? && |items| < 0x8000_0000 ==> count.value == |items|
    {
      assert |items| < 0x8000_0000 ==> Wrap(|items|) == |items|;
      hide ApplyWrites, WritesAt, Regrouped, Group, Surviving, Wrap;
      var groups := GroupByPartition(hash, items);
      var total, failed;
      total, failed, written := SendGroups(hash, route, items, groups, fails, late);
      forall n | n in dbs
        ensures dbs[n] == ApplyWrites(old(dbs)[n], WritesAt(hash, route, n, Surviving(hash, items, written)))
      {
        ReachedIsSequential(old(dbs), dbs, hash, route, items, written, n);
      }
      RegroupedLength(hash, items, written);
      if failed {
        return None, written;
      }
      AllSurvive(hash, items, written);
      return Some(total), written;
    }
  }
}
