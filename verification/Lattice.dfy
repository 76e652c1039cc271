/**
  The values a tracker node computes with form a join-semilattice: register
  arrays under pointwise maximum, and maps from group to registers under the
  join that unites groups. Every theorem about replay, reordering and loss
  rests on the least-upper-bound laws proved here.
 */
module Lattice {
  import opened Base

  type Regs = s: seq<byte> | |s| == NUM_REGS witness seq(NUM_REGS, i => 0)

  function EmptyRegs(): Regs
  {
    seq(NUM_REGS, i => 0)
  }

  /** Ranks never exceed 51: one more than the 50 hash bits they are counted in. */
  predicate InRange(r: seq<byte>)
  {
    forall i | 0 <= i < |r| :: r[i] <= 51
  }

  function Max(a: byte, b: byte): byte
  {
    if a > b then a else b
  }

  predicate LeqRegs(a: Regs, b: Regs)
  {
    forall i | 0 <= i < NUM_REGS :: a[i] <= b[i]
  }

  function JoinRegs(a: Regs, b: Regs): (r: Regs)
    ensures LeqRegs(a, r) && LeqRegs(b, r)
    ensures forall i | 0 <= i < NUM_REGS :: r[i] == a[i] || r[i] == b[i]
  {
    seq(NUM_REGS, i requires 0 <= i < NUM_REGS => Max(a[i], b[i]))
  }

  lemma LeqRegsAntisymmetric(a: Regs, b: Regs)
    requires LeqRegs(a, b) && LeqRegs(b, a)
    ensures a == b
  {
  }

  /** Merging registers is commutative, associative and idempotent, and the empty sketch is its unit. */
  lemma JoinRegsLaws(a: Regs, b: Regs, c: Regs)
    ensures JoinRegs(a, b) == JoinRegs(b, a)
    ensures JoinRegs(a, JoinRegs(b, c)) == JoinRegs(JoinRegs(a, b), c)
    ensures JoinRegs(a, a) == a
    ensures JoinRegs(EmptyRegs(), a) == a
  {
  }

  type Groups = map<string, Regs>

  function Lookup(st: Groups, g: string): Option<Regs>
  {
    if g in st then Some(st[g]) else None
  }

  /** Every group of `a` is in `b` with registers at least as large. */
  predicate Leq(a: Groups, b: Groups)
  {
    forall g | g in a :: g in b && LeqRegs(a[g], b[g])
  }

  function Join(a: Groups, b: Groups): (r: Groups)
  {
    map g | g in a.Keys + b.Keys ::
      if g in a && g in b then JoinRegs(a[g], b[g]) else if g in a then a[g] else b[g]
  }

  lemma JoinUpper(a: Groups, b: Groups)
    ensures Leq(a, Join(a, b)) && Leq(b, Join(a, b))
  {
  }

  lemma JoinLeast(a: Groups, b: Groups, u: Groups)
    requires Leq(a, u) && Leq(b, u)
    ensures Leq(Join(a, b), u)
  {
  }

  lemma LeqReflexive(a: Groups)
    ensures Leq(a, a)
  {
  }

  lemma LeqTransitive(a: Groups, b: Groups, c: Groups)
    requires Leq(a, b) && Leq(b, c)
    ensures Leq(a, c)
  {
  }

  predicate Rises(chain: seq<Groups>, k: nat)
    requires k + 1 < |chain|
  {
    Leq(chain[k], chain[k + 1])
  }

  /** A sequence of states that never falls from one to the next never falls at all. */
  lemma {:induction false} ChainRises(chain: seq<Groups>, i: nat, j: nat)
    requires i <= j < |chain| && forall k: nat | i <= k < j :: Rises(chain, k)
    ensures Leq(chain[i], chain[j])
    decreases j
  {
    if i == j {
      LeqReflexive(chain[i]);
    } else {
      ChainRises(chain, i, j - 1);
      assert Rises(chain, j - 1);
      LeqTransitive(chain[i], chain[j - 1], chain[j]);
    }
  }

  lemma LeqAntisymmetric(a: Groups, b: Groups)
    requires Leq(a, b) && Leq(b, a)
    ensures a == b
  {
    assert a.Keys == b.Keys;
    forall g | g in a ensures a[g] == b[g] {
      LeqRegsAntisymmetric(a[g], b[g]);
    }
  }

  /** Joining what is already covered changes nothing: the reason replay is harmless. */
  lemma JoinAbsorbs(a: Groups, b: Groups)
    requires Leq(b, a)
    ensures Join(a, b) == a
  {
    JoinUpper(a, b);
    JoinLeast(a, b, a);
    LeqAntisymmetric(Join(a, b), a);
  }

  lemma JoinAssociative(a: Groups, b: Groups, c: Groups)
    ensures Join(Join(a, b), c) == Join(a, Join(b, c))
  {
    var l, r := Join(Join(a, b), c), Join(a, Join(b, c));
    JoinUpper(a, b); JoinUpper(b, c); JoinUpper(Join(a, b), c); JoinUpper(a, Join(b, c));
    LeqTransitive(a, Join(a, b), l); LeqTransitive(b, Join(a, b), l);
    LeqTransitive(b, Join(b, c), r); LeqTransitive(c, Join(b, c), r);
    JoinLeast(a, b, r); JoinLeast(b, c, l);
    JoinLeast(Join(a, b), c, r); JoinLeast(a, Join(b, c), l);
    LeqAntisymmetric(l, r);
  }
}
