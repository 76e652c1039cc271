/**
  Serialised engine states: the contents of the store and of a Raft snapshot.
  Framing (gob) is lossless and left out; each group maps to its sketch bytes.
 */
module WireFormat {
  import opened Base
  import opened Hll
  import opened Lattice

  type Wire = map<string, seq<byte>>

  function Marshal(st: Groups): Wire
  {
    map g | g in st :: Bytes(st[g])
  }

  predicate AllParse(wire: Wire)
  {
    forall g | g in wire :: Parse(wire[g]).Some?
  }

  /** What Unmarshal, or LoadAll with Restore into a new engine, rebuilds. */
  function Parsed(wire: Wire): Groups
    requires AllParse(wire)
  {
    map g | g in wire :: Parse(wire[g]).value
  }

  lemma UnmarshalUndoesMarshal(st: Groups)
    ensures AllParse(Marshal(st)) && Parsed(Marshal(st)) == st
  {
    forall g | g in st ensures Parse(Marshal(st)[g]) == Some(st[g]) {
      ParseUndoesBytes(st[g], []);
    }
  }

  lemma SaveGroup(store: Wire, g: string, r: Regs)
    requires AllParse(store)
    ensures AllParse(store[g := Bytes(r)]) && Parsed(store[g := Bytes(r)]) == Parsed(store)[g := r]
  {
    ParseUndoesBytes(r, []);
  }
}
