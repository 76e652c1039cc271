/**
  Every way a sketch can come about, and the one thing that is left of it: the set of ids.
 */
module SketchHistory {
  import opened Base
  import opened Bits
  import opened Hll
  import opened Lattice

  datatype History =
    | Fresh
    | AddTo(before: History, id: uint64)
    | MergeOf(left: History, right: History)
    | Reloaded(saved: History)

  function Contents(place: Placement, h: History): Option<Regs>
  {
    match h
    case Fresh => Some(EmptyRegs())
    case AddTo(h', id) =>
      var r := Contents(place, h');
      if r.Some? then Some(AddReg(place, r.value, id)) else None
    case MergeOf(a, b) =>
      var x, y := Contents(place, a), Contents(place, b);
      if x.Some? && y.Some? then Some(JoinRegs(x.value, y.value)) else None
    case Reloaded(h') =>
      var r := Contents(place, h');
      if r.Some? then Parse(Bytes(r.value)) else None
  }

  function IdsOf(h: History): set<uint64>
  {
    match h
    case Fresh => {}
    case AddTo(h', id) => IdsOf(h') + {id}
    case MergeOf(a, b) => IdsOf(a) + IdsOf(b)
    case Reloaded(h') => IdsOf(h')
  }

  /** Whatever was added, merged, serialised and parsed, the registers are the sketch of the ids that went in. */
  lemma {:induction false} HistoryIsSketch(place: Placement, h: History)
    ensures Contents(place, h).Some?
    ensures IsSketchOf(place, Contents(place, h).value, IdsOf(h))
    ensures InRange(Contents(place, h).value)
  {
    match h
    case Fresh =>
    case AddTo(h', id) =>
      HistoryIsSketch(place, h');
      AddIsInsert(place, Contents(place, h').value, IdsOf(h'), id);
    case MergeOf(a, b) =>
      HistoryIsSketch(place, a);
      HistoryIsSketch(place, b);
      MergeIsUnion(place, Contents(place, a).value, IdsOf(a), Contents(place, b).value, IdsOf(b));
    case Reloaded(h') =>
      HistoryIsSketch(place, h');
      ParseUndoesBytes(Contents(place, h').value, []);
  }

  /** Order, repetition, and the split into sketches merged later are all invisible in the registers. */
  lemma SameIdsSameSketch(place: Placement, a: History, b: History)
    requires IdsOf(a) == IdsOf(b)
    ensures Contents(place, a) == Contents(place, b)
  {
    HistoryIsSketch(place, a);
    HistoryIsSketch(place, b);
    SketchUnique(place, Contents(place, a).value, Contents(place, b).value, IdsOf(a));
  }
}
