/** Types shared by the storage and the metadata side. */
module Common {

  datatype Option<+T> = None | Some(value: T)

  const TOTAL_PARTITIONS: nat := 4096

  type u32 = n: int | 0 <= n < 0x1_0000_0000

  datatype PartitionStatus = Normal | MigratingOut | MigratingIn | Offline

  predicate Distinct<T(==)>(s: seq<T>) {
    forall i, j :: 0 <= i < j < |s| ==> s[i] != s[j]
  }

  lemma Assoc<T>(a: seq<T>, b: seq<T>, c: seq<T>)
    ensures a + b + c == a + (b + c)
  {
  }
}
