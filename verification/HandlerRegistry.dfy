/**
  The command handlers and their registry, run against a live engine.
 */
module HandlerRegistry {
  import opened Base
  import opened Bits
  import Spec = Commands
  import opened Engines
  import opened Lattice
  import opened Varint

  class Registry {
    var m: Spec.Handlers

    constructor Empty()
      ensures m == map[]
    {
      m := map[];
    }

    /** The registry of a production node. */
    constructor Default()
      ensures m == Spec.DefaultHandlers()
    {
      m := map[];
      new;
      Register(Spec.TYPE_ADD, Spec.HandleAdd);
      Register(Spec.TYPE_BATCH_ADD, Spec.HandleBatchAdd);
      Register(Spec.TYPE_MERGE_SKETCH, Spec.HandleMergeSketch);
    }

    method Register(t: string, h: Spec.Handler)
      modifies this
      ensures m == old(m)[t := h]
    {
      m := m[t := h];
    }

    method Dispatch(c: Spec.Command, e: Engine) returns (o: Outcome)
      requires e.Valid()
      modifies e, e.repr
      ensures e.Valid() && fresh(e.repr - old(e.repr))
      ensures Spec.Applied(e.state, o) == Spec.DispatchWith(m, e.place, old(e.state), c)
      ensures c.ctype !in m ==> o == Err(ErrUnknownCommand) && e.state == old(e.state)
    {
      if c.ctype !in m {
        return Err(ErrUnknownCommand);
      }
      match m[c.ctype]
      case HandleAdd => o := ApplyAdd(c, e);
      case HandleBatchAdd => o := ApplyBatchAdd(c, e);
      case HandleMergeSketch => o := ApplyMergeSketch(c, e);
    }
  }

  method ApplyAdd(c: Spec.Command, e: Engine) returns (o: Outcome)
    requires e.Valid()
    modifies e, e.repr
    ensures e.Valid() && fresh(e.repr - old(e.repr))
    ensures Spec.Applied(e.state, o) == Spec.ApplyAdd(e.place, old(e.state), c)
  {
    var v := Uvarint(c.payload);
    if v.Bad? || v.n != |c.payload| {
      return Err(ErrBadPayload);
    }
    e.Add(c.group, v.x);
    o := Ok;
  }

  lemma AddOneMore(place: Placement, st: Groups, g: string, done: seq<uint64>, id: uint64)
    ensures Spec.AddIds(place, st, g, done + [id]) == Spec.AddId(place, Spec.AddIds(place, st, g, done), g, id)
  {
  }

  /** Ids are added as they are decoded, so bytes that break off leave a prefix behind. The loop ends with the bytes. */
  method AddDecoded(e: Engine, group: string, ids: seq<byte>, n: uint64) returns (o: Outcome)
    requires e.Valid()
    modifies e, e.repr
    ensures e.Valid() && fresh(e.repr - old(e.repr))
    ensures Spec.Applied(e.state, o) == Spec.PrefixAdded(e.place, old(e.state), group, Spec.DecodeIds(ids, n))
  {
    var buf, i := ids, 0;
    ghost var done: seq<uint64> := [];
    while i < n
      invariant |done| == i <= n && Spec.Consumes(ids, done, buf)
      invariant e.Valid() && fresh(e.repr - old(e.repr))
      invariant e.state == Spec.AddIds(e.place, old(e.state), group, done)
      decreases |buf|
    {
      var v := Uvarint(buf);
      if v.Bad? {
        Spec.MaximalPrefixUnique(ids, n, done, buf);
        return Err(ErrBadPayload);
      }
      Spec.ConsumesOneMore(ids, done, buf);
      AddOneMore(e.place, old(e.state), group, done, v.x);
      e.Add(group, v.x);
      buf, i, done := buf[v.n..], i + 1, done + [v.x];
    }
    Spec.MaximalPrefixUnique(ids, n, done, buf);
    o := Ok;
  }

  method ApplyBatchAdd(c: Spec.Command, e: Engine) returns (o: Outcome)
    requires e.Valid()
    modifies e, e.repr
    ensures e.Valid() && fresh(e.repr - old(e.repr))
    ensures Spec.Applied(e.state, o) == Spec.ApplyBatchAdd(e.place, old(e.state), c)
  {
    var count := Uvarint(c.payload);
    if count.Bad? {
      return Err(ErrBadPayload);
    }
    o := AddDecoded(e, c.group, c.payload[count.n..], count.x);
  }

  method ApplyMergeSketch(c: Spec.Command, e: Engine) returns (o: Outcome)
    requires e.Valid()
    modifies e, e.repr
    ensures e.Valid() && fresh(e.repr - old(e.repr))
    ensures Spec.Applied(e.state, o) == Spec.ApplyMergeSketch(old(e.state), c)
  {
    var len := Uvarint(c.payload);
    if len.Bad? {
      return Err(ErrBadPayload);
    }
    var buf := c.payload[len.n..];
    if |buf| < len.x {
      return Err(ErrBadPayload);
    }
    o := e.MergeBytes(c.group, BytesToString(buf[..len.x]), buf[len.x..]);
  }
}
