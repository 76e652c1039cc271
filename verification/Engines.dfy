/**
  The per-group engine: a map from group to a live sketch object, updated in
  place. Every method runs under the engine's lock, so each is one atomic step.
  Its abstract value is the map from group to registers.
 */
module Engines {
  import opened Base
  import opened Bits
  import Spec = Commands
  import opened Estimate
  import opened Hll
  import opened Lattice
  import opened Storage
  import opened WireFormat

  /** `st` holds the parsed sketch of every group of `wire` but those still to do. */
  ghost predicate ParsedBut(wire: Wire, todo: set<string>, st: Groups)
  {
    && todo <= wire.Keys && st.Keys == wire.Keys - todo
    && forall g | g in st :: Parse(wire[g]) == Some(st[g])
  }

  lemma ParsedOne(wire: Wire, todo: set<string>, st: Groups, g: string, r: Regs)
    requires ParsedBut(wire, todo, st) && g in todo && Parse(wire[g]) == Some(r)
    ensures ParsedBut(wire, todo - {g}, st[g := r])
  {
  }

  lemma ParsedAll(wire: Wire, st: Groups)
    requires ParsedBut(wire, {}, st)
    ensures AllParse(wire) && st == Parsed(wire)
  {
  }

  lemma AddAfterLookup(place: Placement, st: Groups, g: string, id: uint64)
    ensures Spec.AddId(place, st[g := Spec.RegsOf(st, g)], g, id) == Spec.AddId(place, st, g, id)
  {
  }

  /** Parse every sketch into an object of its own, stopping at the first failure. */
  method ParseAll(wire: Wire) returns (built: map<string, Sketch>, ok: bool)
    ensures ok <==> AllParse(wire)
    ensures ok ==> built.Keys == wire.Keys
    ensures forall g | g in built ::
      g in wire && fresh(built[g].regs) && built[g].Valid() && Some(built[g].View()) == Parse(wire[g])
    ensures forall g, h | g in built && h in built && g != h :: built[g].regs != built[h].regs
  {
    built, ok := map[], true;
    var todo := wire.Keys;
    while todo != {}
      invariant todo <= wire.Keys && built.Keys == wire.Keys - todo
      invariant forall g | g in built ::
        fresh(built[g].regs) && built[g].Valid() && Some(built[g].View()) == Parse(wire[g])
      invariant forall g, h | g in built && h in built && g != h :: built[g].regs != built[h].regs
      decreases |todo|
    {
      var g :| g in todo;
      var sk := ParseSketch(wire[g]);
      if sk == null {
        return built, false;
      }
      built, todo := built[g := sk], todo - {g};
    }
  }

  class Engine {
    const murmur: Murmur
    ghost const place: Placement
    var groups: map<string, Sketch>

    /** The abstract value: the registers of every group. */
    ghost var state: Groups

    /** Every register array the engine may write. */
    ghost var repr: set<array<byte>>

    /** Sketches are well formed, no two groups share one, and together they hold the abstract value. */
    ghost predicate Valid()
      reads this, repr
    {
      && place == PlacementOf(murmur)
      && groups.Keys == state.Keys
      && (forall g | g in groups :: groups[g].regs in repr && groups[g].Valid() && groups[g].View() == state[g])
      && (forall g, h | g in groups && h in groups && g != h :: groups[g].regs != groups[h].regs)
    }

    /** An HLL engine places ids by their 64-bit hash. */
    constructor (murmur: Murmur)
      ensures Valid() && place == PlacementOf(murmur) && groups == map[] && state == map[] && repr == {}
    {
      this.murmur, place := murmur, PlacementOf(murmur);
      groups, state, repr := map[], map[], {};
    }

    /** Look the group up, creating it empty if absent. */
    method SketchFor(group: string) returns (sk: Sketch)
      requires Valid()
      modifies this
      ensures Valid() && fresh(repr - old(repr))
      ensures group in groups && sk == groups[group]
      ensures state == old(state)[group := Spec.RegsOf(old(state), group)]
    {
      if group !in groups {
        var empty := new Sketch();
        groups := groups[group := empty];
        state, repr := state[group := EmptyRegs()], repr + {empty.regs};
      }
      sk := groups[group];
    }

    method Add(group: string, id: uint64)
      requires Valid()
      modifies this, repr
      ensures Valid() && fresh(repr - old(repr))
      ensures state == Spec.AddId(place, old(state), group, id)
    {
      var sk := SketchFor(group);
      AddAfterLookup(place, old(state), group, id);
      sk.Add(murmur, id);
      state := state[group := sk.View()];
    }

    /** Insert and save in one atomic step: on success the store holds exactly the live sketch of the group. */
    method AddAndPersist(group: string, id: uint64, store: Store) returns (o: Outcome)
      requires Valid()
      modifies this, repr, store
      ensures Valid() && fresh(repr - old(repr))
      ensures state == Spec.AddId(place, old(state), group, id)
      ensures o.Ok? ==> store.Saved() == old(store.Saved())[group := Bytes(state[group])]
      ensures o.Err? ==> o.error == ErrSave && store.Saved() == old(store.Saved())
    {
      Add(group, id);
      var b := groups[group].ToBytes();
      var ok := store.Save(group, b);
      o := if ok then Ok else Err(ErrSave);
    }

    method Persist(group: string, store: Store) returns (o: Outcome)
      requires Valid()
      modifies store
      ensures group !in groups <==> o == Err(ErrUnknownGroup)
      ensures o.Ok? ==> store.Saved() == old(store.Saved())[group := Bytes(state[group])]
      ensures o.Err? ==> store.Saved() == old(store.Saved())
    {
      if group !in groups {
        return Err(ErrUnknownGroup);
      }
      var b := groups[group].ToBytes();
      var ok := store.Save(group, b);
      o := if ok then Ok else Err(ErrSave);
    }

    method Restore(group: string, b: seq<byte>) returns (o: Outcome)
      requires Valid()
      modifies this
      ensures Valid() && fresh(repr - old(repr))
      ensures match Parse(b)
              case None => o == Err(ErrParse) && state == old(state)
              case Some(r) => o == Ok && state == old(state)[group := r]
    {
      var sk := ParseSketch(b);
      if sk == null {
        return Err(ErrParse);
      }
      groups := groups[group := sk];
      state, repr := state[group := sk.View()], repr + {sk.regs};
      o := Ok;
    }

    /** The remote sketch is read, never kept: no register array from outside enters the footprint. */
    method Merge(group: string, remote: Sketch?) returns (o: Outcome)
      requires Valid() && (remote != null ==> remote.Valid())
      modifies this, repr
      ensures Valid() && fresh(repr - old(repr))
      ensures remote == null ==> o == Err(ErrNilSketch) && state == old(state)
      ensures remote != null ==> o == Ok && state == Spec.MergeInto(old(state), group, old(remote.View()))
    {
      if remote == null {
        return Err(ErrNilSketch);
      }
      if group !in groups {
        var copy := remote.Clone();
        groups := groups[group := copy];
        state, repr := state[group := copy.View()], repr + {copy.regs};
      } else {
        ghost var r := remote.View();
        groups[group].Merge(remote);
        state := state[group := JoinRegs(state[group], r)];
      }
      o := Ok;
    }

    method MergeBytes(group: string, algo: string, b: seq<byte>) returns (o: Outcome)
      requires Valid()
      modifies this, repr
      ensures Valid() && fresh(repr - old(repr))
      ensures Spec.Applied(state, o) == Spec.MergeBytes(old(state), group, algo, b)
      ensures o == if algo != "hll" then Err(ErrAlgoMismatch) else if !Spec.IsSketch(b) then Err(ErrParse) else Ok
      ensures o.Err? ==> state == old(state)
    {
      Spec.MergeBytesExact(state, group, algo, b);
      if algo != ALGO_NAME {
        return Err(ErrAlgoMismatch);
      }
      var remote := ParseSketch(b);
      if remote == null {
        return Err(ErrParse);
      }
      o := Merge(group, remote);
    }

    method MarshalAll() returns (wire: Wire)
      requires Valid()
      ensures wire == Marshal(state)
    {
      wire := map[];
      var todo := groups.Keys;
      while todo != {}
        invariant todo <= groups.Keys && wire.Keys == groups.Keys - todo
        invariant forall g | g in wire :: wire[g] == Bytes(state[g])
        decreases |todo|
      {
        var g :| g in todo;
        var b := groups[g].ToBytes();
        wire, todo := wire[g := b], todo - {g};
      }
    }

    /** All or nothing: one group that does not parse leaves the engine as it was. */
    method Unmarshal(wire: Wire) returns (o: Outcome)
      requires Valid()
      modifies this
      ensures Valid() && fresh(repr - old(repr))
      ensures AllParse(wire) <==> o == Ok
      ensures state == if AllParse(wire) then Parsed(wire) else old(state)
    {
      var built, ok := ParseAll(wire);
      if !ok {
        return Err(ErrParse);
      }
      groups, state, repr := built, Parsed(wire), set g | g in built :: built[g].regs;
      o := Ok;
    }

    method Cardinality(group: string, ln: real -> real) returns (card: int, o: Outcome)
      requires Valid()
      ensures if group in state then o == Ok && card == Rounded(Estimated(ln, state[group]))
              else o == Err(ErrUnknownGroup) && card == 0
    {
      if group !in groups {
        return 0, Err(ErrUnknownGroup);
      }
      card := groups[group].Cardinality(ln);
      o := Ok;
    }

    method CardinalityAll(ln: real -> real) returns (all: map<string, int>)
      requires Valid()
      ensures all.Keys == state.Keys
      ensures forall g | g in all :: all[g] == Rounded(Estimated(ln, state[g]))
    {
      all := map[];
      var todo := groups.Keys;
      while todo != {}
        invariant todo <= groups.Keys && all.Keys == groups.Keys - todo
        invariant forall g | g in all :: all[g] == Rounded(Estimated(ln, state[g]))
        decreases |todo|
      {
        var g :| g in todo;
        var card := groups[g].Cardinality(ln);
        all, todo := all[g := card], todo - {g};
      }
    }
  }

  /** The startup path: every persisted group is restored into a new engine; the first failure aborts. */
  method LoadAll(murmur: Murmur, store: Store) returns (e: Engine, o: Outcome)
    ensures fresh(e) && e.Valid() && fresh(e.repr) && e.place == PlacementOf(murmur)
    ensures AllParse(store.Saved()) <==> o == Ok
    ensures o.Ok? ==> e.state == Parsed(store.Saved())
  {
    e := new Engine(murmur);
    o := Ok;
    var saved := SavedIn(store.db);
    var todo := saved.Keys;
    while todo != {}
      invariant o == Ok && e.Valid() && fresh(e.repr)
      invariant ParsedBut(saved, todo, e.state)
      decreases |todo|
    {
      var g :| g in todo;
      ghost var before := e.state;
      o := e.Restore(g, saved[g]);
      if o.Err? {
        assert !AllParse(saved);
        return;
      }
      ParsedOne(saved, todo, before, g, e.state[g]);
      todo := todo - {g};
    }
    ParsedAll(saved, e.state);
  }
}
