/** The ring as an object: sorted slice, owner map and node set, with binary search and a clockwise walk. */
module RingStore {
  import opened Common
  import opened HashRing
  import opened RingLookup

  const DEFAULT_VIRTUAL_NODES: nat := 150

  lemma OwnedNone(owner: map<u32, string>, n: string)
    ensures Owned(owner, [], n) == owner
  {
  }

  lemma OwnedOneMore(owner: map<u32, string>, hs: seq<u32>, h: u32, n: string)
    ensures Owned(owner, hs + [h], n) == Owned(owner, hs, n)[h := n]
  {
  }

  class ConsistentHash {
    const hash: Hash
    const virtualNodes: nat
    var ring: seq<u32>
    var nodeMap: map<u32, string>
    var nodes: set<string>

    function View(): Ring
      reads this
    {
      Ring(ring, nodeMap, nodes)
    }

    constructor (hash: Hash, virtualNodes: int)
      ensures this.hash == hash && View() == EMPTY
      ensures this.virtualNodes == if virtualNodes <= 0 then 150 else virtualNodes
      ensures this.virtualNodes > 0
    {
      this.hash := hash;
      this.virtualNodes := if virtualNodes <= 0 then DEFAULT_VIRTUAL_NODES else virtualNodes;
      ring, nodeMap, nodes := [], map[], {};
    }

    method AddNode(node: string)
      modifies this
      ensures View() == Added(hash, virtualNodes, old(View()), node)
      ensures old(Sorted(ring)) ==> Sorted(ring)
    {
      if node in nodes {
        return;
      }
      hide Owned, Sort;
      nodes := nodes + {node};
      ghost var ps := Points(hash, virtualNodes, node);
      OwnedNone(nodeMap, node);
      for i := 0 to virtualNodes
        invariant nodes == old(nodes) + {node}
        invariant ring == old(ring) + ps[..i]
        invariant nodeMap == Owned(old(nodeMap), ps[..i], node)
      {
        var h := hash(Label(node, i));
        ring := ring + [h];
        nodeMap := nodeMap[h := node];
        assert ps[..i + 1] == ps[..i] + [h];
        OwnedOneMore(old(nodeMap), ps[..i], h, node);
      }
      assert ps[..virtualNodes] == ps;
      ring := Sort(ring);
    }

    method RemoveNode(node: string)
      modifies this
      ensures View() == Removed(old(View()), node)
      ensures old(Sorted(ring)) ==> Sorted(ring)
    {
      if node !in nodes {
        return;
      }
      nodes := nodes - {node};
      var newRing: seq<u32> := [];
      assert ring[0..] == ring && [] + Sweep(ring, nodeMap, node).0 == Sweep(ring, nodeMap, node).0;
      for i := 0 to |ring|
        invariant nodes == old(nodes) - {node} && ring == old(ring)
        invariant Sweep(ring, old(nodeMap), node) ==
                  (newRing + Sweep(ring[i..], nodeMap, node).0, Sweep(ring[i..], nodeMap, node).1)
      {
        assert ring[i..][1..] == ring[i + 1..];
        if OwnerOf(nodeMap, ring[i]) != node {
          assert newRing + ([ring[i]] + Sweep(ring[i + 1..], nodeMap, node).0) ==
                 newRing + [ring[i]] + Sweep(ring[i + 1..], nodeMap, node).0;
          newRing := newRing + [ring[i]];
        } else {
          nodeMap := nodeMap - {ring[i]};
        }
      }
      ring := newRing;
      if old(Sorted(ring)) {
        SweepSorted(old(ring), old(nodeMap), node);
      }
    }

    /** `search`: binary search for the first position at or past `x`, wrapping to the first of all. */
    method Search(x: u32) returns (idx: nat)
      requires ring != []
      ensures idx < |ring|
      ensures Sorted(ring) ==> IsStart(ring, x, idx)
    {
      var lo, hi := 0, |ring|;
      while lo < hi
        invariant 0 <= lo <= hi <= |ring|
        invariant Sorted(ring) ==> forall k :: 0 <= k < lo ==> ring[k] < x
        invariant Sorted(ring) ==> forall k :: hi <= k < |ring| ==> ring[k] >= x
      {
        var mid := (lo + hi) / 2;
        if ring[mid] >= x {
          hi := mid;
        } else {
          lo := mid + 1;
        }
      }
      idx := lo;
      if idx >= |ring| {
        idx := 0;
      }
    }

    /** `GetNode`: the owner of the first position at or past the key. */
    method GetNode(key: string) returns (node: string)
      requires Sorted(ring)
      ensures node == LookupPair(View(), hash(key)).0
    {
      if ring == [] {
        return "";
      }
      var idx := Search(hash(key));
      StartUnique(ring, hash(key), idx);
      node := OwnerOf(nodeMap, ring[idx]);
    }

    /** `GetNodes`: walk on from there to the first position of another node. */
    method GetNodes(pid: nat) returns (primary: string, replica: string)
      requires Sorted(ring)
      ensures (primary, replica) == LookupPair(View(), hash(PartitionLabel(pid)))
    {
      if ring == [] {
        return "", "";
      }
      var x := hash(PartitionLabel(pid));
      var idx := Search(x);
      StartUnique(ring, x, idx);
      primary, replica := OwnerOf(nodeMap, ring[idx]), "";
      var i := 1;
      while i < |ring|
        invariant 1 <= i <= |ring| && replica == ""
        invariant NextOther(View(), idx, 1, primary) == NextOther(View(), idx, i, primary)
      {
        var next := OwnerOf(nodeMap, ring[(idx + i) % |ring|]);
        if next != primary {
          return primary, next;
        }
        i := i + 1;
      }
    }
  }
}
