/**
  The ring as the router holds it: a slice and a map, updated in place and
  searched by bisection. Proved against the functions of module HashRing.
 */
module Router {
  import opened Base
  import opened HashRing

  lemma ScanAt(points: seq<uint32>, h: uint32, i: nat, k: nat)
    requires points != [] && i <= k <= |points|
    requires forall j | i <= j < k :: points[j] < h
    requires k < |points| ==> points[k] >= h
    ensures ScanFrom(points, h, i) == if k == |points| then 0 else k
    decreases k - i
  {
    if i < k {
      ScanAt(points, h, i + 1, k);
    }
  }

  class Router {
    const hash: Hasher
    var ring: seq<uint32>
    var nodeMap: map<uint32, string>

    ghost function View(): Ring
      reads this
    {
      Ring.Ring(ring, nodeMap)
    }

    /** Points are sorted and only points have owners. */
    ghost predicate Valid()
      reads this
    {
      WellFormed(View())
    }

    constructor (hash: Hasher)
      ensures Valid() && this.hash == hash && View() == EmptyRing()
    {
      this.hash := hash;
      ring, nodeMap := [], map[];
    }

    method AddNode(addr: string)
      requires Valid()
      modifies this
      ensures Valid() && View() == HashRing.AddNode(hash, old(View()), addr)
    {
      for i := 0 to VNODES
        invariant View() == Appended(hash, old(View()), addr, i)
      {
        var h := hash.vnode(addr, i);
        ring := ring + [h];
        nodeMap := nodeMap[h := addr];
      }
      ring := Sort(ring);
      AddKeepsWellFormed(hash, old(View()), addr);
    }

    method RemoveNode(addr: string)
      requires Valid()
      modifies this
      ensures Valid() && View() == HashRing.RemoveNode(old(View()), addr)
    {
      var keep := [];
      for k := 0 to |ring|
        invariant ring == old(ring) && Ring.Ring(keep, nodeMap) == Swept(ring[..k], old(nodeMap), addr)
      {
        var h := ring[k];
        assert ring[..k + 1][..k] == ring[..k];
        if OwnerAt(nodeMap, h) != addr {
          keep := keep + [h];
        } else {
          nodeMap := nodeMap - {h};
        }
      }
      assert ring[..|ring|] == ring;
      ring := keep;
      RemoveKeepsWellFormed(old(View()), addr);
    }

    /** Bisection finds the point the linear scan defines, with the same wrap-around. */
    method Resolve(group: string) returns (owner: string)
      requires Valid()
      ensures owner == HashRing.Resolve(hash, View(), group)
    {
      if |ring| == 0 {
        return "";
      }
      var h := hash.key(group);
      var lo, hi := 0, |ring|;
      while lo < hi
        invariant 0 <= lo <= hi <= |ring|
        invariant forall j | 0 <= j < lo :: ring[j] < h
        invariant forall j | hi <= j < |ring| :: ring[j] >= h
      {
        var mid := (lo + hi) / 2;
        if ring[mid] >= h {
          hi := mid;
        } else {
          lo := mid + 1;
        }
      }
      ScanAt(ring, h, 0, lo);
      if lo == |ring| {
        lo := 0;
      }
      owner := OwnerAt(nodeMap, ring[lo]);
    }
  }
}
