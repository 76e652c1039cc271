/**
  The HyperLogLog sketch: 16384 one-byte registers, each the largest rank seen
  in its bucket. The hash of an id (murmur3 over its eight little-endian bytes)
  is an arbitrary function, so every statement holds for all hash functions;
  the lattice facts hold for any placement of ids into registers.
 */
module Hll {
  import opened Base
  import opened Bits
  import opened Estimate
  import opened Lattice

  const PRECISION: byte := 14
  const ALGO_NAME := "hll"

  /** The sketch of a single id. */
  function Mark(place: Placement, id: uint64): Regs
  {
    EmptyRegs()[place(id).idx := place(id).rho]
  }

  /** Adding an id joins in the sketch of that id. */
  function AddReg(place: Placement, r: Regs, id: uint64): Regs
  {
    JoinRegs(r, Mark(place, id))
  }

  lemma MarkRaisesOneRegister(place: Placement, r: Regs, id: uint64)
    ensures var s := place(id);
            AddReg(place, r, id) == if s.rho > r[s.idx] then r[s.idx := s.rho] else r
  {
  }

  /** One id touches the register named by the top 14 bits of its hash, and raises it to the id's rank at most. */
  lemma AddExact(murmur: Murmur, r: Regs, id: uint64, k: bv64, low: bv64)
    requires k < 0x4000 && low < 0x4_0000_0000_0000 && murmur(id) == (k << 50) | low
    ensures k as nat < NUM_REGS && LeadingZeros(low << 14, 50) <= 50
    ensures var rank := 1 + LeadingZeros(low << 14, 50);
            AddReg(PlacementOf(murmur), r, id) == if rank > r[k as nat] then r[k as nat := rank] else r
  {
    PlacementExact(murmur, id, k, low);
    MarkRaisesOneRegister(PlacementOf(murmur), r, id);
  }

  predicate Hits(place: Placement, id: uint64, i: nat, v: byte)
  {
    place(id).idx == i && place(id).rho == v
  }

  /** Register i holds the largest rank of the ids in bucket i, or 0 when the bucket is empty. */
  ghost predicate IsSketchOf(place: Placement, r: Regs, ids: set<uint64>)
  {
    && (forall id | id in ids :: place(id).rho <= r[place(id).idx])
    && (forall i | 0 <= i < NUM_REGS && r[i] != 0 :: exists id | id in ids :: Hits(place, id, i, r[i]))
  }

  /** The defining property determines the registers, so a sketch depends only on the set of ids. */
  lemma SketchUnique(place: Placement, r: Regs, r': Regs, ids: set<uint64>)
    requires IsSketchOf(place, r, ids) && IsSketchOf(place, r', ids)
    ensures r == r'
  {
  }

  lemma MergeIsUnion(place: Placement, r: Regs, s: set<uint64>, r': Regs, s': set<uint64>)
    requires IsSketchOf(place, r, s) && IsSketchOf(place, r', s')
    ensures IsSketchOf(place, JoinRegs(r, r'), s + s')
  {
  }

  lemma AddIsInsert(place: Placement, r: Regs, s: set<uint64>, id: uint64)
    requires IsSketchOf(place, r, s)
    ensures IsSketchOf(place, AddReg(place, r, id), s + {id})
  {
  }

  // ---- wire format -------------------------------------------------------

  /** Two little-endian precision bytes, then the registers. */
  function Bytes(r: Regs): seq<byte>
  {
    [PRECISION, 0] + r
  }

  function Parse(b: seq<byte>): Option<Regs>
  {
    if |b| < 2 + NUM_REGS then None
    else if b[0] as int + 0x100 * b[1] as int != PRECISION then None
    else Some(b[2..2 + NUM_REGS])
  }

  /** Parse undoes Bytes, ignores anything that follows, and accepts nothing else. */
  lemma ParseUndoesBytes(r: Regs, b: seq<byte>)
    ensures Parse(Bytes(r)) == Some(r)
    ensures Parse(b) == Some(r) <==> Bytes(r) <= b
  {
    assert Bytes(r)[2..2 + NUM_REGS] == r;
    if Parse(b) == Some(r) {
      assert b[..2 + NUM_REGS] == Bytes(r);
    }
    if Bytes(r) <= b {
      assert b[0] == Bytes(r)[0] && b[1] == Bytes(r)[1];
      assert b[2..2 + NUM_REGS] == Bytes(r)[2..];
    }
  }

  // ---- the sketch object -------------------------------------------------

  class Sketch {
    const regs: array<byte>

    ghost predicate Valid()
    {
      regs.Length == NUM_REGS
    }

    ghost function View(): Regs
      requires Valid()
      reads regs
    {
      regs[..]
    }

    constructor ()
      ensures Valid() && fresh(regs) && View() == EmptyRegs()
    {
      regs := new byte[NUM_REGS](i => 0);
      new;
      assert regs[..] == EmptyRegs();
    }

    /** A parsed or cloned sketch owns a new register array. */
    constructor Of(r: Regs)
      ensures Valid() && fresh(regs) && View() == r
    {
      regs := new byte[NUM_REGS](i requires 0 <= i < NUM_REGS => r[i]);
      new;
      assert regs[..] == r;
    }

    /** Raise the register the id's hash picks to the id's rank, if that is larger. */
    method Add(murmur: Murmur, id: uint64)
      requires Valid()
      modifies regs
      ensures View() == AddReg(PlacementOf(murmur), old(View()), id)
    {
      var hash := murmur(id);
      var idx, rho := Bucket(hash), Rho(hash);
      MarkRaisesOneRegister(PlacementOf(murmur), old(View()), id);
      if rho > regs[idx] {
        regs[idx] := rho;
      }
    }

    method Merge(other: Sketch)
      requires Valid() && other.Valid()
      modifies regs
      ensures View() == JoinRegs(old(View()), old(other.View()))
    {
      for k := 0 to NUM_REGS
        invariant forall i | 0 <= i < k :: regs[i] == Max(old(regs[i]), old(other.regs[i]))
        invariant forall i | k <= i < NUM_REGS :: regs[i] == old(regs[i]) && other.regs[i] == old(other.regs[i])
      {
        if other.regs[k] > regs[k] {
          regs[k] := other.regs[k];
        }
      }
      assert regs[..] == JoinRegs(old(View()), old(other.View()));
    }

    /** The estimate in one pass over the registers, accumulating the harmonic sum and the zero count. */
    method Cardinality(ln: real -> real) returns (card: int)
      requires Valid()
      ensures card == Rounded(Estimated(ln, View()))
    {
      var sum, zeros := 0.0, 0;
      for k := 0 to NUM_REGS
        invariant sum == HarmonicSum(regs[..k]) && zeros == Zeros(regs[..k])
      {
        assert regs[..k + 1][..k] == regs[..k];
        sum := sum + InvPow2(regs[k]);
        if regs[k] == 0 {
          zeros := zeros + 1;
        }
      }
      assert regs[..NUM_REGS] == regs[..];
      var est := ALPHA_MM / sum;
      if est <= 2.5 * M && zeros > 0 {
        est := M * ln(M / zeros as real);
      }
      card := (est + 0.5).Floor;
    }

    method ToBytes() returns (b: seq<byte>)
      requires Valid()
      ensures b == Bytes(View())
    {
      b := [PRECISION, 0] + regs[..];
    }

    method Clone() returns (c: Sketch)
      requires Valid()
      ensures fresh(c) && fresh(c.regs) && c.Valid() && c.View() == View()
    {
      c := new Sketch.Of(regs[..]);
    }
  }

  method ParseSketch(b: seq<byte>) returns (s: Sketch?)
    ensures s == null <==> Parse(b) == None
    ensures s != null ==> fresh(s) && fresh(s.regs) && s.Valid() && Some(s.View()) == Parse(b)
  {
    if |b| < 2 + NUM_REGS {
      return null;
    }
    if b[0] as int + 0x100 * b[1] as int != PRECISION {
      return null;
    }
    s := new Sketch.Of(b[2..2 + NUM_REGS]);
  }
}
