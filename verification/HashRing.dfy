/**
  The consistent-hash ring: 150 hash points per node address, a sorted slice of
  points and a map from point to owner. Points may collide and addresses may be
  added twice; nothing below excludes that unless it says so. The hash functions
  are arbitrary.
 */
module HashRing {
  import opened Base

  const VNODES: nat := 150

  /** The points of keys and of virtual nodes. */
  datatype Hasher = Hasher(key: string -> uint32, vnode: (string, nat) -> uint32)

  datatype Ring = Ring(points: seq<uint32>, owner: map<uint32, string>)

  function EmptyRing(): Ring
  {
    Ring([], map[])
  }

  // ---- virtual node labels -----------------------------------------------

  function Decimal(n: nat): (s: string)
    ensures |s| >= 1 && forall i | 0 <= i < |s| :: '0' <= s[i] <= '9'
  {
    if n < 10 then [('0' as int + n) as char] else Decimal(n / 10) + [('0' as int + n % 10) as char]
  }

  lemma {:induction false} DecimalInjective(m: nat, n: nat)
    requires Decimal(m) == Decimal(n)
    ensures m == n
    decreases m
  {
    var s := Decimal(m);
    assert s[|s| - 1] == ('0' as int + m % 10) as char == ('0' as int + n % 10) as char;
    if m >= 10 && n >= 10 {
      assert s[..|s| - 1] == Decimal(m / 10) == Decimal(n / 10);
      DecimalInjective(m / 10, n / 10);
    }
  }

  /** The number a string of decimal digits denotes. */
  function Denoted(s: string): nat
    requires forall i | 0 <= i < |s| :: '0' <= s[i] <= '9'
  {
    if s == [] then 0 else 10 * Denoted(s[..|s| - 1]) + (s[|s| - 1] as int - '0' as int)
  }

  /** Decimal writes n in digits, without leading zeros. */
  lemma {:induction false} DecimalDenotes(n: nat)
    ensures Denoted(Decimal(n)) == n && (n > 0 ==> Decimal(n)[0] != '0')
    decreases n
  {
    if n >= 10 {
      DecimalDenotes(n / 10);
      assert Decimal(n)[..|Decimal(n)| - 1] == Decimal(n / 10);
    }
  }

  function Label(addr: string, i: nat): string
  {
    addr + "#" + Decimal(i)
  }

  /** The address, a hash sign, and the digits of the index. */
  lemma LabelExact(addr: string, i: nat)
    ensures addr + "#" <= Label(addr, i) && Label(addr, i)[|addr| + 1..] == Decimal(i) && Denoted(Decimal(i)) == i
  {
    DecimalDenotes(i);
  }

  lemma LabelHasOneLastHash(a: string, i: nat)
    ensures Label(a, i)[|a|] == '#'
    ensures forall k | |a| < k < |Label(a, i)| :: Label(a, i)[k] != '#'
  {
  }

  /** Distinct virtual nodes hash distinct strings, whatever characters an address contains. */
  lemma LabelInjective(a: string, i: nat, b: string, j: nat)
    requires Label(a, i) == Label(b, j)
    ensures a == b && i == j
  {
    LabelHasOneLastHash(a, i);
    LabelHasOneLastHash(b, j);
    var s := Label(a, i);
    assert s[..|a|] == a && s[..|b|] == b;
    assert s[|a| + 1..] == Decimal(i) && s[|b| + 1..] == Decimal(j);
    DecimalInjective(i, j);
  }

  /** The ring's own hasher: one 32-bit hash of the key, or of the label "addr#i". */
  function MurmurHasher(murmur: string -> uint32): Hasher
  {
    Hasher(murmur, (addr, i) => murmur(Label(addr, i)))
  }

  // ---- sorting -----------------------------------------------------------

  predicate Sorted(s: seq<uint32>)
  {
    forall i, j | 0 <= i < j < |s| :: s[i] <= s[j]
  }

  function Insert(s: seq<uint32>, x: uint32): seq<uint32>
  {
    if s == [] then [x] else if x <= s[0] then [x] + s else [s[0]] + Insert(s[1..], x)
  }

  /** The result of sort.Slice on numbers: the sorted rearrangement. */
  function Sort(s: seq<uint32>): seq<uint32>
  {
    if s == [] then [] else Insert(Sort(s[..|s| - 1]), s[|s| - 1])
  }

  lemma {:induction false} InsertAdds(s: seq<uint32>, x: uint32)
    ensures multiset(Insert(s, x)) == multiset(s) + multiset{x}
    decreases |s|
  {
    if s != [] && x > s[0] {
      InsertAdds(s[1..], x);
      assert s == [s[0]] + s[1..];
    }
  }

  lemma PrependSorted(x: uint32, s: seq<uint32>)
    requires Sorted(s) && forall y | y in s :: x <= y
    ensures Sorted([x] + s)
  {
    var t := [x] + s;
    forall i, j | 0 <= i < j < |t| ensures t[i] <= t[j] {
      assert t[j] == s[j - 1] && t[j] in s;
    }
  }

  lemma InsertMembers(s: seq<uint32>, x: uint32, y: uint32)
    ensures y in Insert(s, x) <==> y == x || y in s
  {
    InsertAdds(s, x);
    assert y in Insert(s, x) <==> y in multiset(Insert(s, x));
    assert y in s <==> y in multiset(s);
  }

  lemma {:induction false} InsertKeepsSorted(s: seq<uint32>, x: uint32)
    requires Sorted(s)
    ensures Sorted(Insert(s, x))
    decreases |s|
  {
    if s == [] {
    } else if x <= s[0] {
      PrependSorted(x, s);
    } else {
      InsertKeepsSorted(s[1..], x);
      forall y | y in Insert(s[1..], x) ensures s[0] <= y {
        InsertMembers(s[1..], x, y);
      }
      PrependSorted(s[0], Insert(s[1..], x));
    }
  }

  lemma {:induction false} SortSorts(s: seq<uint32>)
    ensures Sorted(Sort(s)) && multiset(Sort(s)) == multiset(s)
    ensures forall p :: p in Sort(s) <==> p in s
    decreases |s|
  {
    if s != [] {
      var init, x := s[..|s| - 1], s[|s| - 1];
      SortSorts(init);
      InsertAdds(Sort(init), x);
      InsertKeepsSorted(Sort(init), x);
      assert s == init + [x];
    }
    forall p ensures p in Sort(s) <==> p in s {
      assert p in Sort(s) <==> p in multiset(Sort(s));
      assert p in s <==> p in multiset(s);
    }
  }

  // ---- operations --------------------------------------------------------

  function OwnerAt(owner: map<uint32, string>, p: uint32): string
  {
    if p in owner then owner[p] else ""
  }

  function VPoint(hash: Hasher, addr: string, i: nat): uint32
  {
    hash.vnode(addr, i)
  }

  /** The unsorted ring after the first n virtual nodes of addr were appended. */
  function Appended(hash: Hasher, r: Ring, addr: string, n: nat): Ring
  {
    if n == 0 then r
    else
      var before, h := Appended(hash, r, addr, n - 1), VPoint(hash, addr, n - 1);
      Ring(before.points + [h], before.owner[h := addr])
  }

  function AddNode(hash: Hasher, r: Ring, addr: string): Ring
  {
    var all := Appended(hash, r, addr, VNODES);
    Ring(Sort(all.points), all.owner)
  }

  /** Sweep the points in order, dropping each one whose current owner is addr together with its map entry. */
  function Swept(points: seq<uint32>, owner: map<uint32, string>, addr: string): Ring
    decreases |points|
  {
    if points == [] then Ring([], owner)
    else
      var before, h := Swept(points[..|points| - 1], owner, addr), points[|points| - 1];
      if OwnerAt(before.owner, h) != addr then Ring(before.points + [h], before.owner)
      else Ring(before.points, before.owner - {h})
  }

  function RemoveNode(r: Ring, addr: string): Ring
  {
    Swept(r.points, r.owner, addr)
  }

  /** Linear scan for the first point not before h; past the end it wraps to the first point. */
  function ScanFrom(points: seq<uint32>, h: uint32, i: nat): (k: nat)
    requires points != [] && i <= |points|
    ensures k < |points|
    decreases |points| - i
  {
    if i == |points| then 0 else if points[i] >= h then i else ScanFrom(points, h, i + 1)
  }

  function Resolve(hash: Hasher, r: Ring, group: string): string
  {
    if r.points == [] then "" else OwnerAt(r.owner, r.points[ScanFrom(r.points, hash.key(group), 0)])
  }

  // ---- clockwise distance ------------------------------------------------

  /** How far one travels from h, upwards and wrapping at 2^32, to reach p. */
  function Clockwise(h: uint32, p: uint32): nat
  {
    if p >= h then p - h else p + 0x1_0000_0000 - h
  }

  ghost predicate IsNearest(points: seq<uint32>, h: uint32, p: uint32)
  {
    p in points && forall q | q in points :: Clockwise(h, p) <= Clockwise(h, q)
  }

  lemma {:induction false} ScanFindsNearest(points: seq<uint32>, h: uint32, i: nat)
    requires Sorted(points) && points != [] && i <= |points|
    requires forall k | 0 <= k < i :: points[k] < h
    ensures IsNearest(points, h, points[ScanFrom(points, h, i)])
    decreases |points| - i
  {
    if i < |points| && points[i] < h {
      ScanFindsNearest(points, h, i + 1);
    } else {
      var p := points[ScanFrom(points, h, i)];
      forall q | q in points ensures Clockwise(h, p) <= Clockwise(h, q) {
        var k :| 0 <= k < |points| && points[k] == q;
        if i < |points| && k < i {
          assert q < h <= p;
        }
      }
    }
  }

  /** A key belongs to the owner of the point at the least clockwise distance from its hash. */
  lemma ResolveIsNearest(hash: Hasher, r: Ring, group: string, p: uint32)
    requires Sorted(r.points) && IsNearest(r.points, hash.key(group), p)
    ensures Resolve(hash, r, group) == OwnerAt(r.owner, p)
  {
    ScanFindsNearest(r.points, hash.key(group), 0);
  }

  lemma NearestExists(hash: Hasher, r: Ring, group: string) returns (p: uint32)
    requires Sorted(r.points) && r.points != []
    ensures IsNearest(r.points, hash.key(group), p) && Resolve(hash, r, group) == OwnerAt(r.owner, p)
  {
    p := r.points[ScanFrom(r.points, hash.key(group), 0)];
    ScanFindsNearest(r.points, hash.key(group), 0);
  }

  // ---- what the operations do to points and owners -----------------------

  /** The first n virtual-node points of an address. */
  function NewPoints(hash: Hasher, addr: string, n: nat): set<uint32>
  {
    if n == 0 then {} else NewPoints(hash, addr, n - 1) + {VPoint(hash, addr, n - 1)}
  }

  lemma {:induction false} InNewPoints(hash: Hasher, addr: string, n: nat, p: uint32)
    ensures p in NewPoints(hash, addr, n) <==> exists i | 0 <= i < n :: VPoint(hash, addr, i) == p
    decreases n
  {
    if n > 0 {
      InNewPoints(hash, addr, n - 1, p);
    }
  }

  lemma {:induction false} AppendedPoints(hash: Hasher, r: Ring, addr: string, n: nat)
    ensures forall p :: p in Appended(hash, r, addr, n).points <==> p in r.points || p in NewPoints(hash, addr, n)
    decreases n
  {
    if n > 0 {
      AppendedPoints(hash, r, addr, n - 1);
    }
  }

  lemma {:induction false} AppendedOwners(hash: Hasher, r: Ring, addr: string, n: nat)
    ensures Appended(hash, r, addr, n).owner.Keys == r.owner.Keys + NewPoints(hash, addr, n)
    ensures forall p :: OwnerAt(Appended(hash, r, addr, n).owner, p)
                        == if p in NewPoints(hash, addr, n) then addr else OwnerAt(r.owner, p)
    decreases n
  {
    if n > 0 {
      AppendedOwners(hash, r, addr, n - 1);
    }
  }

  /** AddNode adds exactly the points of the address and takes over their ownership. */
  lemma AddNodeFacts(hash: Hasher, r: Ring, addr: string)
    ensures var r', new' := AddNode(hash, r, addr), NewPoints(hash, addr, VNODES);
            && Sorted(r'.points)
            && (forall p :: p in r'.points <==> p in r.points || p in new')
            && r'.owner.Keys == r.owner.Keys + new'
            && (forall p :: OwnerAt(r'.owner, p) == if p in new' then addr else OwnerAt(r.owner, p))
  {
    AppendedPoints(hash, r, addr, VNODES);
    AppendedOwners(hash, r, addr, VNODES);
    SortSorts(Appended(hash, r, addr, VNODES).points);
  }

  lemma {:induction false} AppendedSize(hash: Hasher, r: Ring, addr: string, n: nat)
    ensures |Appended(hash, r, addr, n).points| == |r.points| + n
    decreases n
  {
    if n > 0 {
      AppendedSize(hash, r, addr, n - 1);
    }
  }

  /** Every AddNode puts 150 more points on the ring, coinciding ones counted. */
  lemma AddNodeSize(hash: Hasher, r: Ring, addr: string)
    ensures |AddNode(hash, r, addr).points| == |r.points| + 150
  {
    var all := Appended(hash, r, addr, VNODES).points;
    AppendedSize(hash, r, addr, VNODES);
    SortSorts(all);
    assert |multiset(Sort(all))| == |multiset(all)|;
  }

  /** The map entries a sweep deletes: those of swept points owned by addr. */
  predicate Dropped(points: seq<uint32>, owner: map<uint32, string>, addr: string, p: uint32)
  {
    p in points && p in owner && owner[p] == addr
  }

  lemma {:induction false} SweptOwners(points: seq<uint32>, owner: map<uint32, string>, addr: string)
    ensures forall p :: p in Swept(points, owner, addr).owner <==> p in owner && !Dropped(points, owner, addr, p)
    ensures forall p | p in Swept(points, owner, addr).owner :: Swept(points, owner, addr).owner[p] == owner[p]
    decreases |points|
  {
    if points != [] {
      var init, h := points[..|points| - 1], points[|points| - 1];
      SweptOwners(init, owner, addr);
      assert forall p :: p in points <==> p in init || p == h;
    }
  }

  lemma OwnerAfterSweep(points: seq<uint32>, owner: map<uint32, string>, addr: string, h: uint32)
    ensures OwnerAt(Swept(points, owner, addr).owner, h)
         == if Dropped(points, owner, addr, h) then "" else OwnerAt(owner, h)
  {
    SweptOwners(points, owner, addr);
  }

  lemma LastCounted(points: seq<uint32>, p: uint32)
    requires points != []
    ensures var init, h := points[..|points| - 1], points[|points| - 1];
            && multiset(points)[p] == multiset(init)[p] + (if p == h then 1 else 0)
            && (p in points <==> p in init || p == h)
  {
    assert points == points[..|points| - 1] + [points[|points| - 1]];
  }

  /** The last point of a sweep is kept exactly when its current owner is not addr. */
  lemma LastSwept(points: seq<uint32>, owner: map<uint32, string>, addr: string, p: uint32)
    requires points != []
    ensures var before, h := Swept(points[..|points| - 1], owner, addr), points[|points| - 1];
            multiset(Swept(points, owner, addr).points)[p]
            == multiset(before.points)[p] + if p == h && OwnerAt(before.owner, h) != addr then 1 else 0
  {
  }

  /** Exactly one copy of each dropped point disappears; every other point keeps all its copies. */
  lemma {:induction false} SweptCounts(points: seq<uint32>, owner: map<uint32, string>, addr: string, p: uint32)
    requires addr != ""
    ensures multiset(Swept(points, owner, addr).points)[p]
         == multiset(points)[p] - if Dropped(points, owner, addr, p) then 1 else 0
    decreases |points|
  {
    if points != [] {
      var init, h := points[..|points| - 1], points[|points| - 1];
      SweptCounts(init, owner, addr, p);
      OwnerAfterSweep(init, owner, addr, h);
      LastCounted(points, p);
      LastSwept(points, owner, addr, p);
    }
  }

  /** Removing the empty address is different: a point without an owner reads as owned by it, so all its copies go. */
  lemma {:induction false} SweptEmptyCounts(points: seq<uint32>, owner: map<uint32, string>, p: uint32)
    ensures multiset(Swept(points, owner, "").points)[p] == if OwnerAt(owner, p) == "" then 0 else multiset(points)[p]
    decreases |points|
  {
    if points != [] {
      var init, h := points[..|points| - 1], points[|points| - 1];
      SweptEmptyCounts(init, owner, p);
      OwnerAfterSweep(init, owner, "", h);
      LastCounted(points, p);
      LastSwept(points, owner, "", p);
    }
  }

  lemma {:induction false} SweptSorted(points: seq<uint32>, owner: map<uint32, string>, addr: string)
    requires Sorted(points)
    ensures Sorted(Swept(points, owner, addr).points)
    ensures forall p | p in Swept(points, owner, addr).points :: p in points
    decreases |points|
  {
    if points != [] {
      var init, h := points[..|points| - 1], points[|points| - 1];
      SweptSorted(init, owner, addr);
      var kept := Swept(init, owner, addr).points;
      forall i | 0 <= i < |kept| ensures kept[i] <= h {
        assert kept[i] in init;
        var k :| 0 <= k < |init| && init[k] == kept[i];
      }
    }
  }

  /** RemoveNode keeps every point not owned by the address, and forgets the address's entries. */
  lemma RemoveNodeFacts(r: Ring, addr: string)
    requires Sorted(r.points) && addr != ""
    ensures var r' := RemoveNode(r, addr);
            && Sorted(r'.points)
            && (forall p | p in r'.points :: p in r.points)
            && (forall p | p in r.points && OwnerAt(r.owner, p) != addr :: p in r'.points)
            && (forall p :: p in r'.owner <==> p in r.owner && !Dropped(r.points, r.owner, addr, p))
            && (forall p | p in r'.owner :: r'.owner[p] == r.owner[p])
  {
    SweptSorted(r.points, r.owner, addr);
    SweptOwners(r.points, r.owner, addr);
    forall p | p in r.points && OwnerAt(r.owner, p) != addr ensures p in RemoveNode(r, addr).points {
      SweptCounts(r.points, r.owner, addr, p);
      assert p in multiset(r.points);
      assert p in multiset(RemoveNode(r, addr).points);
    }
  }

  // ---- every history of AddNode and RemoveNode ---------------------------

  datatype Op = Join(addr: string) | Leave(addr: string)

  function After(hash: Hasher, ops: seq<Op>): Ring
    decreases |ops|
  {
    if ops == [] then EmptyRing()
    else
      var before := After(hash, ops[..|ops| - 1]);
      match ops[|ops| - 1]
      case Join(a) => AddNode(hash, before, a)
      case Leave(a) => RemoveNode(before, a)
  }

  /** Points are sorted and only points have owners. */
  ghost predicate WellFormed(r: Ring)
  {
    Sorted(r.points) && forall p | p in r.owner :: p in r.points
  }

  lemma AddKeepsWellFormed(hash: Hasher, r: Ring, a: string)
    requires WellFormed(r)
    ensures WellFormed(AddNode(hash, r, a))
  {
    AddNodeFacts(hash, r, a);
  }

  /** Removing the empty address drops ownerless points too; the map still only mentions points. */
  lemma {:induction false} SweptKeepsOwnedPoints(points: seq<uint32>, owner: map<uint32, string>, addr: string)
    ensures forall p | p in points && p in Swept(points, owner, addr).owner :: p in Swept(points, owner, addr).points
    decreases |points|
  {
    if points != [] {
      SweptKeepsOwnedPoints(points[..|points| - 1], owner, addr);
    }
  }

  lemma RemoveKeepsWellFormed(r: Ring, a: string)
    requires WellFormed(r)
    ensures WellFormed(RemoveNode(r, a))
  {
    SweptSorted(r.points, r.owner, a);
    SweptOwners(r.points, r.owner, a);
    SweptKeepsOwnedPoints(r.points, r.owner, a);
  }

  lemma {:induction false} HistoryKeepsWellFormed(hash: Hasher, ops: seq<Op>)
    ensures WellFormed(After(hash, ops))
    decreases |ops|
  {
    if ops != [] {
      var before := After(hash, ops[..|ops| - 1]);
      HistoryKeepsWellFormed(hash, ops[..|ops| - 1]);
      match ops[|ops| - 1]
      case Join(a) => AddKeepsWellFormed(hash, before, a);
      case Leave(a) => RemoveKeepsWellFormed(before, a);
    }
  }

  // ---- minimal disruption ------------------------------------------------

  /** A joining node may only take keys over; it never moves a key between other nodes. */
  lemma AddDisruptsMinimally(hash: Hasher, r: Ring, a: string, group: string)
    requires WellFormed(r)
    ensures Resolve(hash, AddNode(hash, r, a), group) in {Resolve(hash, r, group), a}
  {
    var r' := AddNode(hash, r, a);
    AddNodeFacts(hash, r, a);
    assert VPoint(hash, a, VNODES - 1) in NewPoints(hash, a, VNODES);
    var p := NearestExists(hash, r', group);
    if p !in NewPoints(hash, a, VNODES) {
      ResolveIsNearest(hash, r, group, p);
    }
  }

  /** A leaving node's keys move; all others stay, and nothing resolves to it any more. Collisions included. */
  lemma RemoveDisruptsMinimally(hash: Hasher, r: Ring, a: string, group: string)
    requires WellFormed(r) && a != ""
    ensures Resolve(hash, r, group) != a ==> Resolve(hash, RemoveNode(r, a), group) == Resolve(hash, r, group)
    ensures Resolve(hash, RemoveNode(r, a), group) != a
  {
    var r' := RemoveNode(r, a);
    RemoveNodeFacts(r, a);
    if r.points != [] && Resolve(hash, r, group) != a {
      var p := NearestExists(hash, r, group);
      ResolveIsNearest(hash, r', group, p);
    }
    if r'.points != [] {
      var p := NearestExists(hash, r', group);
    }
  }

  // ---- ownerless points --------------------------------------------------

  ghost predicate AllOwned(r: Ring)
  {
    forall p | p in r.points :: p in r.owner
  }

  predicate OrphanAt(r: Ring, p: uint32)
  {
    p in r.points && p !in r.owner
  }

  predicate DoubledAt(r: Ring, a: string, p: uint32)
  {
    p in r.owner && r.owner[p] == a && multiset(r.points)[p] != 1
  }

  lemma RemoveOrphansAt(r: Ring, a: string, p: uint32)
    requires WellFormed(r)
    ensures OrphanAt(RemoveNode(r, a), p) <==> a != "" && (OrphanAt(r, p) || DoubledAt(r, a, p))
  {
    var r' := RemoveNode(r, a);
    SweptOwners(r.points, r.owner, a);
    assert p in r.points <==> p in multiset(r.points);
    assert p in r'.points <==> p in multiset(r'.points);
    if a == "" {
      SweptEmptyCounts(r.points, r.owner, p);
    } else {
      SweptCounts(r.points, r.owner, a, p);
    }
  }

  lemma OwnedIffNoOrphan(r: Ring)
    ensures AllOwned(r) <==> forall p :: !OrphanAt(r, p)
  {
    if forall p :: !OrphanAt(r, p) {
      forall p | p in r.points ensures p in r.owner {
        assert !OrphanAt(r, p);
      }
    }
  }

  /**
    After a removal every point has an owner exactly when every point had one
    before and each point of the removed address was on the ring once. Removing
    the empty address always leaves a ring without ownerless points.
   */
  lemma RemoveOrphansIff(r: Ring, a: string)
    requires WellFormed(r)
    ensures AllOwned(RemoveNode(r, a))
       <==> a == "" || (AllOwned(r) && forall p | p in r.owner && r.owner[p] == a :: multiset(r.points)[p] == 1)
  {
    var r' := RemoveNode(r, a);
    forall p ensures OrphanAt(r', p) <==> a != "" && (OrphanAt(r, p) || DoubledAt(r, a, p)) {
      RemoveOrphansAt(r, a, p);
    }
    OwnedIffNoOrphan(r);
    OwnedIffNoOrphan(r');
    if forall p :: !DoubledAt(r, a, p) {
      forall p | p in r.owner && r.owner[p] == a ensures multiset(r.points)[p] == 1 {
        assert !DoubledAt(r, a, p);
      }
    }
  }

  /** How many of the first n virtual nodes of an address fall on p. */
  function Landings(hash: Hasher, a: string, n: nat, p: uint32): nat
  {
    if n == 0 then 0 else Landings(hash, a, n - 1, p) + if VPoint(hash, a, n - 1) == p then 1 else 0
  }

  lemma {:induction false} LandingsArePoints(hash: Hasher, a: string, n: nat, p: uint32)
    ensures Landings(hash, a, n, p) > 0 <==> p in NewPoints(hash, a, n)
    decreases n
  {
    if n > 0 {
      LandingsArePoints(hash, a, n - 1, p);
    }
  }

  lemma {:induction false} AppendedCounts(hash: Hasher, r: Ring, a: string, n: nat, p: uint32)
    ensures multiset(Appended(hash, r, a, n).points)[p] == multiset(r.points)[p] + Landings(hash, a, n, p)
    decreases n
  {
    if n > 0 {
      AppendedCounts(hash, r, a, n - 1, p);
    }
  }

  lemma AddCounts(hash: Hasher, r: Ring, a: string, p: uint32)
    ensures multiset(AddNode(hash, r, a).points)[p] == multiset(r.points)[p] + Landings(hash, a, VNODES, p)
  {
    AppendedCounts(hash, r, a, VNODES, p);
    SortSorts(Appended(hash, r, a, VNODES).points);
  }

  /**
    An address listed twice and removed once leaves a ring on which no key has
    an owner: for every hash function and every key.
   */
  lemma AddTwiceRemoveOnceOrphansAll(hash: Hasher, a: string, group: string)
    requires a != ""
    ensures var r := RemoveNode(AddNode(hash, AddNode(hash, EmptyRing(), a), a), a);
            r.points != [] && r.owner == map[] && Resolve(hash, r, group) == ""
  {
    var one := AddNode(hash, EmptyRing(), a);
    var two := AddNode(hash, one, a);
    var r := RemoveNode(two, a);
    var p := VPoint(hash, a, VNODES - 1);
    assert p in NewPoints(hash, a, VNODES);
    AddNodeFacts(hash, EmptyRing(), a);
    AddNodeFacts(hash, one, a);
    assert r.points != [] by {
      LandingsArePoints(hash, a, VNODES, p);
      AddCounts(hash, EmptyRing(), a, p);
      AddCounts(hash, one, a, p);
      SweptCounts(two.points, two.owner, a, p);
      assert p in multiset(r.points);
    }
    assert r.owner == map[] by {
      RemoveNodeFacts(two, a);
    }
  }

  // ---- distinct points: the ring is a function of the addresses added ----

  /** No two virtual nodes of these addresses share a point. */
  ghost predicate DistinctPoints(hash: Hasher, addrs: set<string>)
  {
    forall a, b, i, j | a in addrs && b in addrs && 0 <= i < VNODES && 0 <= j < VNODES &&
                        VPoint(hash, a, i) == VPoint(hash, b, j) :: a == b && i == j
  }

  ghost predicate OwnsPoint(hash: Hasher, a: string, p: uint32)
  {
    p in NewPoints(hash, a, VNODES)
  }

  /** A point of one of the addresses is there once per copy and owned by that address; any other point is absent. */
  ghost predicate Fits(hash: Hasher, r: Ring, copies: map<string, nat>, p: uint32)
  {
    && (p in r.owner ==>
          var a := r.owner[p];
          a in copies && OwnsPoint(hash, a, p) && multiset(r.points)[p] == copies[a] > 0)
    && (p !in r.owner ==> p !in multiset(r.points))
    && (forall a | a in copies && OwnsPoint(hash, a, p) :: p in r.owner && r.owner[p] == a)
  }

  /**
    The ring holds exactly the points of the addresses in `copies`, each point
    as often as its address was added, and every one owned by its address.
   */
  ghost predicate Represents(hash: Hasher, r: Ring, copies: map<string, nat>)
  {
    Sorted(r.points) && forall p :: Fits(hash, r, copies, p)
  }

  /** The 32-bit hash tells apart the virtual-node labels of these addresses. */
  ghost predicate NoLabelCollision(murmur: string -> uint32, addrs: set<string>)
  {
    forall a, b, i, j | a in addrs && b in addrs && 0 <= i < VNODES && 0 <= j < VNODES &&
                        murmur(Label(a, i)) == murmur(Label(b, j)) :: Label(a, i) == Label(b, j)
  }

  /** Points coincide only through a true collision of the hash, never because two virtual nodes share a label. */
  lemma DistinctIffNoCollision(murmur: string -> uint32, addrs: set<string>)
    ensures DistinctPoints(MurmurHasher(murmur), addrs) <==> NoLabelCollision(murmur, addrs)
  {
    var hash := MurmurHasher(murmur);
    if NoLabelCollision(murmur, addrs) {
      forall a, b, i, j | a in addrs && b in addrs && 0 <= i < VNODES && 0 <= j < VNODES &&
                          VPoint(hash, a, i) == VPoint(hash, b, j) ensures a == b && i == j
      {
        LabelInjective(a, i, b, j);
      }
    }
    if DistinctPoints(hash, addrs) {
      forall a, b, i, j | a in addrs && b in addrs && 0 <= i < VNODES && 0 <= j < VNODES &&
                          murmur(Label(a, i)) == murmur(Label(b, j)) ensures Label(a, i) == Label(b, j)
      {
        assert VPoint(hash, a, i) == VPoint(hash, b, j);
      }
    }
  }

  lemma DistinctOwners(hash: Hasher, addrs: set<string>, a: string, b: string, p: uint32)
    requires DistinctPoints(hash, addrs) && a in addrs && b in addrs && OwnsPoint(hash, a, p) && OwnsPoint(hash, b, p)
    ensures a == b
  {
    InNewPoints(hash, a, VNODES, p);
    InNewPoints(hash, b, VNODES, p);
  }

  lemma NextPointIsNew(hash: Hasher, addrs: set<string>, a: string, i: nat)
    requires DistinctPoints(hash, addrs) && a in addrs && i < VNODES
    ensures VPoint(hash, a, i) !in NewPoints(hash, a, i)
  {
    InNewPoints(hash, a, i, VPoint(hash, a, i));
  }

  lemma {:induction false} LandsOnce(hash: Hasher, addrs: set<string>, a: string, n: nat, p: uint32)
    requires DistinctPoints(hash, addrs) && a in addrs && n <= VNODES
    ensures Landings(hash, a, n, p) <= 1
    decreases n
  {
    if n > 0 {
      LandsOnce(hash, addrs, a, n - 1, p);
      LandingsArePoints(hash, a, n - 1, p);
      NextPointIsNew(hash, addrs, a, n - 1);
    }
  }

  function OneMore(copies: map<string, nat>, a: string): map<string, nat>
  {
    copies[a := if a in copies then copies[a] + 1 else 1]
  }

  /** What AddNode does to one point of a ring. */
  lemma AddAt(hash: Hasher, r: Ring, addrs: set<string>, a: string, p: uint32)
    requires DistinctPoints(hash, addrs) && a in addrs
    ensures var r' := AddNode(hash, r, a);
            if OwnsPoint(hash, a, p)
            then p in r'.owner && r'.owner[p] == a && multiset(r'.points)[p] == multiset(r.points)[p] + 1
            else (p in r'.owner <==> p in r.owner) && (p in r.owner ==> r'.owner[p] == r.owner[p])
                 && multiset(r'.points)[p] == multiset(r.points)[p]
  {
    var r' := AddNode(hash, r, a);
    AddNodeFacts(hash, r, a);
    AddCounts(hash, r, a, p);
    LandingsArePoints(hash, a, VNODES, p);
    LandsOnce(hash, addrs, a, VNODES, p);
    assert p in r'.owner.Keys <==> p in r.owner.Keys || OwnsPoint(hash, a, p);
    assert p in r'.owner ==> OwnerAt(r'.owner, p) == r'.owner[p];
  }

  lemma AddFits(hash: Hasher, r: Ring, copies: map<string, nat>, a: string, p: uint32)
    requires Fits(hash, r, copies, p) && DistinctPoints(hash, copies.Keys + {a})
    ensures Fits(hash, AddNode(hash, r, a), OneMore(copies, a), p)
  {
    AddAt(hash, r, copies.Keys + {a}, a, p);
    if OwnsPoint(hash, a, p) {
      forall b | b in OneMore(copies, a) && OwnsPoint(hash, b, p) ensures b == a {
        DistinctOwners(hash, copies.Keys + {a}, a, b, p);
      }
      assert p in r.owner ==> r.owner[p] == a;
    }
  }

  lemma AddRepresents(hash: Hasher, r: Ring, copies: map<string, nat>, a: string)
    requires Represents(hash, r, copies) && DistinctPoints(hash, copies.Keys + {a})
    ensures Represents(hash, AddNode(hash, r, a), OneMore(copies, a))
  {
    assert Sorted(AddNode(hash, r, a).points) by {
      SortSorts(Appended(hash, r, a, VNODES).points);
    }
    forall p ensures Fits(hash, AddNode(hash, r, a), OneMore(copies, a), p) {
      assert Fits(hash, r, copies, p);
      AddFits(hash, r, copies, a, p);
    }
  }

  /** Removing the address takes all its points: it was added once, or not at all, or is the empty address. */
  predicate LeavesWhole(copies: map<string, nat>, a: string)
  {
    a == "" || a !in copies || copies[a] == 1
  }

  /** What RemoveNode does to one point of a ring on which the address is present once. */
  lemma RemoveAt(hash: Hasher, r: Ring, copies: map<string, nat>, a: string, p: uint32)
    requires Fits(hash, r, copies, p) && LeavesWhole(copies, a)
    ensures var r' := RemoveNode(r, a);
            if p in r.owner && r.owner[p] == a
            then p !in r'.owner && p !in multiset(r'.points)
            else (p in r'.owner <==> p in r.owner) && (p in r.owner ==> r'.owner[p] == r.owner[p])
                 && multiset(r'.points)[p] == multiset(r.points)[p]
  {
    SweptOwners(r.points, r.owner, a);
    assert p in r.points <==> p in multiset(r.points);
    if a == "" {
      SweptEmptyCounts(r.points, r.owner, p);
    } else {
      SweptCounts(r.points, r.owner, a, p);
    }
  }

  lemma RemoveFits(hash: Hasher, r: Ring, copies: map<string, nat>, a: string, p: uint32)
    requires Fits(hash, r, copies, p) && LeavesWhole(copies, a)
    ensures Fits(hash, RemoveNode(r, a), copies - {a}, p)
  {
    RemoveAt(hash, r, copies, a, p);
  }

  lemma RemoveRepresents(hash: Hasher, r: Ring, copies: map<string, nat>, a: string)
    requires Represents(hash, r, copies) && LeavesWhole(copies, a)
    ensures Represents(hash, RemoveNode(r, a), copies - {a})
  {
    SweptSorted(r.points, r.owner, a);
    forall p ensures Fits(hash, RemoveNode(r, a), copies - {a}, p) {
      assert Fits(hash, r, copies, p);
      RemoveFits(hash, r, copies, a, p);
    }
  }

  lemma LastOfSorted(s: seq<uint32>, t: seq<uint32>)
    requires Sorted(s) && Sorted(t) && s != [] && t != [] && multiset(s) == multiset(t)
    ensures s[|s| - 1] == t[|t| - 1]
  {
    assert s[|s| - 1] in multiset(t) && t[|t| - 1] in multiset(s);
    assert s[|s| - 1] in t && t[|t| - 1] in s;
  }

  lemma WithoutLast(s: seq<uint32>) returns (init: seq<uint32>, x: uint32)
    requires s != []
    ensures init == s[..|s| - 1] && x == s[|s| - 1] && s == init + [x]
    ensures multiset(init) == multiset(s) - multiset{x}
    ensures Sorted(s) ==> Sorted(init)
  {
    init, x := s[..|s| - 1], s[|s| - 1];
    assert s == init + [x];
  }

  lemma {:induction false} SortedUnique(s: seq<uint32>, t: seq<uint32>)
    requires Sorted(s) && Sorted(t) && multiset(s) == multiset(t)
    ensures s == t
    decreases |s|
  {
    if s == [] {
      assert |multiset(t)| == 0;
    } else {
      assert |multiset(t)| > 0;
      LastOfSorted(s, t);
      var s', x := WithoutLast(s);
      var t', y := WithoutLast(t);
      SortedUnique(s', t');
    }
  }

  /** The present addresses determine who owns a point, and their copies how often it occurs. */
  lemma SamePoint(hash: Hasher, r: Ring, r': Ring, copies: map<string, nat>, copies': map<string, nat>, p: uint32)
    requires Fits(hash, r, copies, p) && Fits(hash, r', copies', p) && copies.Keys == copies'.Keys
    ensures (p in r.owner <==> p in r'.owner) && (p in r.owner ==> r.owner[p] == r'.owner[p])
    ensures p in r.points <==> p in r'.points
    ensures copies == copies' ==> multiset(r.points)[p] == multiset(r'.points)[p]
  {
    assert p in r.points <==> p in multiset(r.points);
    assert p in r'.points <==> p in multiset(r'.points);
    if p in r.owner {
      assert r.owner[p] in copies'.Keys;
    }
    if p in r'.owner {
      assert r'.owner[p] in copies.Keys;
    }
  }

  lemma RepresentsOwned(hash: Hasher, r: Ring, copies: map<string, nat>)
    requires Represents(hash, r, copies)
    ensures WellFormed(r) && AllOwned(r)
  {
    forall p ensures p in r.points <==> p in r.owner {
      assert Fits(hash, r, copies, p);
      assert p in r.points <==> p in multiset(r.points);
    }
  }

  /** Which addresses were added, and how often, determines the ring. */
  lemma RepresentationUnique(hash: Hasher, r: Ring, r': Ring, copies: map<string, nat>)
    requires Represents(hash, r, copies) && Represents(hash, r', copies)
    ensures r == r'
  {
    forall p
      ensures (p in r.owner <==> p in r'.owner) && (p in r.owner ==> r.owner[p] == r'.owner[p])
      ensures multiset(r.points)[p] == multiset(r'.points)[p]
    {
      assert Fits(hash, r, copies, p) && Fits(hash, r', copies, p);
      SamePoint(hash, r, r', copies, copies, p);
    }
    assert r.owner == r'.owner;
    assert multiset(r.points) == multiset(r'.points);
    SortedUnique(r.points, r'.points);
  }

  /** Routing does not see how often an address was added. */
  lemma SameMembersSameOwner(hash: Hasher, r: Ring, r': Ring, copies: map<string, nat>, copies': map<string, nat>,
                             group: string)
    requires Represents(hash, r, copies) && Represents(hash, r', copies') && copies.Keys == copies'.Keys
    ensures Resolve(hash, r, group) == Resolve(hash, r', group)
  {
    forall p
      ensures (p in r.points <==> p in r'.points) && OwnerAt(r.owner, p) == OwnerAt(r'.owner, p)
    {
      assert Fits(hash, r, copies, p) && Fits(hash, r', copies', p);
      SamePoint(hash, r, r', copies, copies', p);
    }
    SamePointsSameRoute(hash, r, r', group);
  }

  lemma EmptyIff(s: seq<uint32>)
    ensures s == [] <==> forall p :: p !in s
  {
    if s != [] {
      assert s[0] in s;
    }
  }

  lemma SamePointsSameRoute(hash: Hasher, r: Ring, r': Ring, group: string)
    requires Sorted(r.points) && Sorted(r'.points)
    requires forall p :: (p in r.points <==> p in r'.points) && OwnerAt(r.owner, p) == OwnerAt(r'.owner, p)
    ensures Resolve(hash, r, group) == Resolve(hash, r', group)
  {
    if r.points != [] {
      assert r.points[0] in r'.points;
      var p := NearestExists(hash, r, group);
      ResolveIsNearest(hash, r', group, p);
    } else {
      EmptyIff(r'.points);
    }
  }

  function Mentioned(ops: seq<Op>): set<string>
  {
    set op | op in ops :: op.addr
  }

  /** The addresses present after a history, with the number of times each was added since it last left. */
  function Copies(ops: seq<Op>): map<string, nat>
    decreases |ops|
  {
    if ops == [] then map[]
    else match ops[|ops| - 1]
      case Join(a) => OneMore(Copies(ops[..|ops| - 1]), a)
      case Leave(a) => Copies(ops[..|ops| - 1]) - {a}
  }

  /** No address leaves while it is on the ring twice. */
  predicate AllLeaveWhole(ops: seq<Op>)
    decreases |ops|
  {
    ops != [] ==>
      && AllLeaveWhole(ops[..|ops| - 1])
      && (ops[|ops| - 1].Leave? ==> LeavesWhole(Copies(ops[..|ops| - 1]), ops[|ops| - 1].addr))
  }

  lemma {:induction false} PresentWereMentioned(ops: seq<Op>)
    ensures Copies(ops).Keys <= Mentioned(ops)
    decreases |ops|
  {
    if ops != [] {
      PresentWereMentioned(ops[..|ops| - 1]);
      assert ops[|ops| - 1] in ops;
    }
  }

  /** With distinct points, a history leaves exactly the points of the present addresses, all of them owned. */
  lemma {:induction false} HistoryRepresents(hash: Hasher, ops: seq<Op>)
    requires AllLeaveWhole(ops) && DistinctPoints(hash, Mentioned(ops))
    ensures Represents(hash, After(hash, ops), Copies(ops)) && AllOwned(After(hash, ops))
    decreases |ops|
  {
    if ops != [] {
      var init, last := ops[..|ops| - 1], ops[|ops| - 1];
      assert Mentioned(init) <= Mentioned(ops);
      HistoryRepresents(hash, init);
      PresentWereMentioned(init);
      assert last in ops;
      match last
      case Join(a) => AddRepresents(hash, After(hash, init), Copies(init), a);
      case Leave(a) => RemoveRepresents(hash, After(hash, init), Copies(init), a);
    }
    RepresentsOwned(hash, After(hash, ops), Copies(ops));
  }

  lemma RemoveOwnedIff(hash: Hasher, r: Ring, copies: map<string, nat>, a: string)
    requires Represents(hash, r, copies)
    ensures AllOwned(RemoveNode(r, a)) <==> LeavesWhole(copies, a)
  {
    if LeavesWhole(copies, a) {
      RemoveRepresents(hash, r, copies, a);
      RepresentsOwned(hash, RemoveNode(r, a), copies - {a});
    } else {
      RepresentsOwned(hash, r, copies);
      var p := VPoint(hash, a, VNODES - 1);
      assert OwnsPoint(hash, a, p) && Fits(hash, r, copies, p);
      RemoveOrphansIff(r, a);
    }
  }

  /** The condition is exact: the first departure of an address that is on the ring twice leaves ownerless points. */
  lemma LeaveOrphansIff(hash: Hasher, ops: seq<Op>, a: string)
    requires AllLeaveWhole(ops) && DistinctPoints(hash, Mentioned(ops))
    ensures AllOwned(RemoveNode(After(hash, ops), a)) <==> LeavesWhole(Copies(ops), a)
  {
    HistoryRepresents(hash, ops);
    RemoveOwnedIff(hash, After(hash, ops), Copies(ops), a);
  }

  ghost predicate OwnedAfter(hash: Hasher, ops: seq<Op>, k: nat)
    requires k <= |ops|
  {
    AllOwned(After(hash, ops[..k]))
  }

  ghost predicate OwnedThroughout(hash: Hasher, ops: seq<Op>)
  {
    forall k: nat | k <= |ops| :: OwnedAfter(hash, ops, k)
  }

  lemma OwnedAfterPrefix(hash: Hasher, ops: seq<Op>, n: nat, k: nat)
    requires k <= n <= |ops|
    ensures OwnedAfter(hash, ops[..n], k) == OwnedAfter(hash, ops, k)
  {
    assert ops[..n][..k] == ops[..k];
  }

  lemma OwnedThroughoutStep(hash: Hasher, ops: seq<Op>)
    requires ops != []
    ensures OwnedThroughout(hash, ops)
       <==> OwnedThroughout(hash, ops[..|ops| - 1]) && OwnedAfter(hash, ops, |ops|)
  {
    var n := |ops| - 1;
    forall k: nat | k <= n ensures OwnedAfter(hash, ops[..n], k) == OwnedAfter(hash, ops, k) {
      OwnedAfterPrefix(hash, ops, n, k);
    }
  }

  /**
    With distinct points, no moment of a history has ownerless points exactly
    when no address leaves while it is on the ring twice.
   */
  lemma {:induction false} HistoryOwnedIff(hash: Hasher, ops: seq<Op>)
    requires DistinctPoints(hash, Mentioned(ops))
    ensures OwnedThroughout(hash, ops) <==> AllLeaveWhole(ops)
    decreases |ops|
  {
    assert ops[..|ops|] == ops;
    if ops != [] {
      var init, last := ops[..|ops| - 1], ops[|ops| - 1];
      assert Mentioned(init) <= Mentioned(ops);
      HistoryOwnedIff(hash, init);
      OwnedThroughoutStep(hash, ops);
      if AllLeaveWhole(init) && last.Leave? {
        LeaveOrphansIff(hash, init, last.addr);
      } else if AllLeaveWhole(init) {
        HistoryRepresents(hash, ops);
      }
    }
  }

  /** The ring depends only on which addresses are present and how often they were added, not on how they came and went. */
  lemma SameCopiesSameRing(hash: Hasher, ops: seq<Op>, ops': seq<Op>)
    requires AllLeaveWhole(ops) && AllLeaveWhole(ops') && Copies(ops) == Copies(ops')
    requires DistinctPoints(hash, Mentioned(ops)) && DistinctPoints(hash, Mentioned(ops'))
    ensures After(hash, ops) == After(hash, ops')
  {
    HistoryRepresents(hash, ops);
    HistoryRepresents(hash, ops');
    RepresentationUnique(hash, After(hash, ops), After(hash, ops'), Copies(ops));
  }

  /** Every routing decision depends only on the set of present addresses. */
  lemma SameMembersSameRoutes(hash: Hasher, ops: seq<Op>, ops': seq<Op>, group: string)
    requires AllLeaveWhole(ops) && AllLeaveWhole(ops') && Copies(ops).Keys == Copies(ops').Keys
    requires DistinctPoints(hash, Mentioned(ops)) && DistinctPoints(hash, Mentioned(ops'))
    ensures Resolve(hash, After(hash, ops), group) == Resolve(hash, After(hash, ops'), group)
  {
    HistoryRepresents(hash, ops);
    HistoryRepresents(hash, ops');
    SameMembersSameOwner(hash, After(hash, ops), After(hash, ops'), Copies(ops), Copies(ops'), group);
  }

  // ---- removing undoes adding --------------------------------------------

  /** The owner of one point after adding and removing an address. */
  lemma UndoneOwner(hash: Hasher, r: Ring, a: string, p: uint32)
    requires WellFormed(r)
    ensures var u := RemoveNode(AddNode(hash, r, a), a);
            && (p in u.owner <==> p in r.owner && r.owner[p] != a && !OwnsPoint(hash, a, p))
            && (p in u.owner ==> u.owner[p] == r.owner[p])
  {
    var r' := AddNode(hash, r, a);
    AddNodeFacts(hash, r, a);
    SweptOwners(r'.points, r'.owner, a);
    assert p in r'.owner.Keys <==> p in r.owner.Keys || OwnsPoint(hash, a, p);
    assert p in r'.owner ==> r'.owner[p] == OwnerAt(r'.owner, p);
  }

  /** How often it occurs then: the new copies less the one the sweep drops, or none if it is swept as ownerless. */
  lemma UndoneCount(hash: Hasher, r: Ring, a: string, p: uint32)
    requires WellFormed(r)
    ensures var n := multiset(r.points)[p] + Landings(hash, a, VNODES, p);
            multiset(RemoveNode(AddNode(hash, r, a), a).points)[p]
            == if !OwnsPoint(hash, a, p) && OwnerAt(r.owner, p) != a then n
               else if a == "" then 0
               else if OwnsPoint(hash, a, p) || p in r.owner then n - 1
               else n
  {
    var r' := AddNode(hash, r, a);
    AddNodeFacts(hash, r, a);
    AddCounts(hash, r, a, p);
    assert OwnerAt(r'.owner, p) == if OwnsPoint(hash, a, p) then a else OwnerAt(r.owner, p);
    assert p in r'.owner.Keys <==> p in r.owner.Keys || OwnsPoint(hash, a, p);
    if a == "" {
      SweptEmptyCounts(r'.points, r'.owner, p);
    } else {
      SweptCounts(r'.points, r'.owner, a, p);
    }
  }

  /** One point is as before: it did not belong to a, and if a claims it, it is new and claimed once. */
  ghost predicate UndoneAt(hash: Hasher, r: Ring, a: string, p: uint32)
  {
    && (p in r.owner ==> r.owner[p] != a && !OwnsPoint(hash, a, p))
    && (if a == "" then p in r.points ==> p in r.owner
        else OwnsPoint(hash, a, p) ==> Landings(hash, a, VNODES, p) == 1)
  }

  lemma UndoneAtIff(hash: Hasher, r: Ring, a: string, p: uint32)
    requires WellFormed(r)
    ensures var u := RemoveNode(AddNode(hash, r, a), a);
            UndoneAt(hash, r, a, p)
            <==> && (p in u.owner <==> p in r.owner) && (p in r.owner ==> u.owner[p] == r.owner[p])
                 && multiset(u.points)[p] == multiset(r.points)[p]
  {
    UndoneOwner(hash, r, a, p);
    UndoneCount(hash, r, a, p);
    LandingsArePoints(hash, a, VNODES, p);
    assert p in r.points <==> p in multiset(r.points);
  }

  lemma UndoneSplits(hash: Hasher, r: Ring, a: string)
    ensures (forall p :: UndoneAt(hash, r, a, p))
       <==> && (forall p | p in r.owner :: r.owner[p] != a)
            && (forall p | OwnsPoint(hash, a, p) :: p !in r.owner)
            && (if a == "" then AllOwned(r)
                else forall p | OwnsPoint(hash, a, p) :: Landings(hash, a, VNODES, p) == 1)
  {
    if forall p :: UndoneAt(hash, r, a, p) {
      forall p
        ensures p in r.owner ==> r.owner[p] != a && !OwnsPoint(hash, a, p)
        ensures if a == "" then p in r.points ==> p in r.owner
                else OwnsPoint(hash, a, p) ==> Landings(hash, a, VNODES, p) == 1
      {
        assert UndoneAt(hash, r, a, p);
      }
    }
  }

  /**
    Removing an address gives back the ring from before its addition exactly
    when the ring had no entry of that address, none of its points had an owner,
    and no two of its virtual nodes share a point. For the empty address, whose
    removal sweeps ownerless points, the ring must instead have had none.
   */
  lemma RemoveUndoesAddIff(hash: Hasher, r: Ring, a: string)
    requires WellFormed(r)
    ensures RemoveNode(AddNode(hash, r, a), a) == r
       <==> && (forall p | p in r.owner :: r.owner[p] != a)
            && (forall p | OwnsPoint(hash, a, p) :: p !in r.owner)
            && (if a == "" then AllOwned(r)
                else forall p | OwnsPoint(hash, a, p) :: Landings(hash, a, VNODES, p) == 1)
  {
    var u := RemoveNode(AddNode(hash, r, a), a);
    if forall p :: UndoneAt(hash, r, a, p) {
      forall p ensures (p in u.owner <==> p in r.owner) && (p in r.owner ==> u.owner[p] == r.owner[p])
               ensures multiset(u.points)[p] == multiset(r.points)[p]
      {
        assert UndoneAt(hash, r, a, p);
        UndoneAtIff(hash, r, a, p);
      }
      assert u.owner == r.owner && multiset(u.points) == multiset(r.points);
      AddKeepsWellFormed(hash, r, a);
      RemoveKeepsWellFormed(AddNode(hash, r, a), a);
      SortedUnique(u.points, r.points);
    }
    if u == r {
      forall p ensures UndoneAt(hash, r, a, p) {
        UndoneAtIff(hash, r, a, p);
      }
    }
    UndoneSplits(hash, r, a);
  }

  /** With distinct points, removing a node that was just added gives back the ring exactly. */
  lemma RemoveUndoesAdd(hash: Hasher, r: Ring, copies: map<string, nat>, a: string)
    requires Represents(hash, r, copies) && a !in copies && DistinctPoints(hash, copies.Keys + {a})
    ensures RemoveNode(AddNode(hash, r, a), a) == r
  {
    RepresentsOwned(hash, r, copies);
    forall p ensures UndoneAt(hash, r, a, p) {
      assert Fits(hash, r, copies, p);
      if p in r.owner && OwnsPoint(hash, a, p) {
        DistinctOwners(hash, copies.Keys + {a}, a, r.owner[p], p);
      }
      LandingsArePoints(hash, a, VNODES, p);
      LandsOnce(hash, copies.Keys + {a}, a, VNODES, p);
    }
    UndoneSplits(hash, r, a);
    RemoveUndoesAddIff(hash, r, a);
  }

  // ---- the ring a server starts with -------------------------------------

  /** One AddNode per entry of the peer list, in order; repeated entries and collisions are possible. */
  function StartupRing(hash: Hasher, peers: seq<string>): Ring
    decreases |peers|
  {
    if peers == [] then EmptyRing()
    else AddNode(hash, StartupRing(hash, peers[..|peers| - 1]), peers[|peers| - 1])
  }

  lemma {:induction false} StartupRingIsOwned(hash: Hasher, peers: seq<string>)
    ensures var r := StartupRing(hash, peers);
            && WellFormed(r) && AllOwned(r) && (peers != [] ==> r.points != [])
            && forall p | p in r.owner :: OwnerAt(r.owner, p) in peers
    decreases |peers|
  {
    if peers != [] {
      var init, a := peers[..|peers| - 1], peers[|peers| - 1];
      StartupRingIsOwned(hash, init);
      AddKeepsWellFormed(hash, StartupRing(hash, init), a);
      AddNodeFacts(hash, StartupRing(hash, init), a);
      assert VPoint(hash, a, VNODES - 1) in NewPoints(hash, a, VNODES);
    }
  }

  /** Whatever collides, every key of a server's startup ring belongs to one of its peers. */
  lemma StartupResolvesToPeer(hash: Hasher, peers: seq<string>, group: string)
    requires peers != []
    ensures Resolve(hash, StartupRing(hash, peers), group) in peers
  {
    StartupRingIsOwned(hash, peers);
    var p := NearestExists(hash, StartupRing(hash, peers), group);
  }

  function Joins(peers: seq<string>): seq<Op>
  {
    seq(|peers|, i requires 0 <= i < |peers| => Join(peers[i]))
  }

  lemma JoinsStep(peers: seq<string>)
    requires peers != []
    ensures var n := |peers| - 1; Joins(peers)[..n] == Joins(peers[..n]) && Joins(peers)[n] == Join(peers[n])
  {
  }

  lemma {:induction false} StartupIsHistory(hash: Hasher, peers: seq<string>)
    ensures StartupRing(hash, peers) == After(hash, Joins(peers))
    decreases |peers|
  {
    if peers != [] {
      var n := |peers| - 1;
      StartupIsHistory(hash, peers[..n]);
      JoinsStep(peers);
      assert After(hash, Joins(peers)) == AddNode(hash, After(hash, Joins(peers[..n])), peers[n]);
    }
  }

  lemma {:induction false} JoinsPresent(peers: seq<string>)
    ensures AllLeaveWhole(Joins(peers)) && Copies(Joins(peers)).Keys == set a | a in peers
    decreases |peers|
  {
    if peers != [] {
      var init := peers[..|peers| - 1];
      JoinsPresent(init);
      assert Joins(peers)[..|peers| - 1] == Joins(init);
      assert peers == init + [peers[|peers| - 1]];
    }
  }

  lemma JoinsMention(peers: seq<string>)
    ensures Mentioned(Joins(peers)) == set a | a in peers
  {
    forall a | a in peers ensures a in Mentioned(Joins(peers)) {
      var i :| 0 <= i < |peers| && peers[i] == a;
      assert Joins(peers)[i] == Join(a);
    }
  }

  /** Servers whose peer lists name the same addresses, in any order and with any repetition, route every group alike. */
  lemma StartupSameRoutes(hash: Hasher, peers: seq<string>, peers': seq<string>, group: string)
    requires (set a | a in peers) == (set a | a in peers') && DistinctPoints(hash, set a | a in peers)
    ensures Resolve(hash, StartupRing(hash, peers), group) == Resolve(hash, StartupRing(hash, peers'), group)
  {
    StartupIsHistory(hash, peers);
    StartupIsHistory(hash, peers');
    JoinsPresent(peers);
    JoinsPresent(peers');
    JoinsMention(peers);
    JoinsMention(peers');
    SameMembersSameRoutes(hash, Joins(peers), Joins(peers'), group);
  }
}
