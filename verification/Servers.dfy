/**
  One server's request handlers: route by the ring, then forward, propose to
  Raft, or add and save. Forwarding itself is the caller's business (module
  Cluster follows requests between servers), so a handler reports the owner.
 */
module Servers {
  import opened Base
  import opened Bits
  import opened Cluster
  import Spec = Commands
  import opened Engines
  import opened Estimate
  import opened Hll
  import opened Lattice
  import Router
  import Standalone
  import opened Storage
  import opened WireFormat

  datatype Reply = Done | ForwardTo(owner: string) | Failed(error: Error)

  /** One ADD per id, in order. */
  function AddCommands(g: string, ids: seq<uint64>): seq<Spec.Command>
  {
    if ids == [] then [] else AddCommands(g, ids[..|ids| - 1]) + [Spec.AddCommand(g, ids[|ids| - 1])]
  }

  /** The first `done` ids of a batch took effect: as proposals in Raft mode, in the engine otherwise. */
  ghost predicate TookEffect(raft: bool, place: Placement, g: string, ids: seq<uint64>, done: nat,
                             st0: Groups, st: Groups, proposals0: seq<Spec.Command>, proposals: seq<Spec.Command>)
    requires done <= |ids|
  {
    if raft then st == st0 && proposals == proposals0 + AddCommands(g, ids[..done])
    else st == Spec.AddIds(place, st0, g, ids[..done]) && proposals == proposals0
  }

  /** How many of the ids that took effect a batch wrote to the store: all but the one whose save failed. */
  function SavedIds(r: Reply, done: nat): nat
  {
    if r == Failed(ErrSave) && done > 0 then done - 1 else done
  }

  /** The store after a batch: unchanged in Raft mode, otherwise the group's sketch after the first m ids. */
  ghost predicate StoredFirst(raft: bool, place: Placement, g: string, ids: seq<uint64>, m: nat,
                              st0: Groups, store0: Wire, store: Wire)
    requires m <= |ids|
  {
    store == if raft || m == 0 then store0 else store0[g := Bytes(Spec.AddIds(place, st0, g, ids[..m])[g])]
  }

  /** What serving one id on its owner does, by the reply. */
  ghost predicate Handled(raft: bool, place: Placement, g: string, id: uint64, r: Reply, st0: Groups, st: Groups,
                          store0: Wire, store: Wire, proposals0: seq<Spec.Command>, proposals: seq<Spec.Command>)
  {
    && (r == Done || r == Failed(if raft then ErrPropose else ErrSave))
    && st == (if raft then st0 else Spec.AddId(place, st0, g, id))
    && store == (if raft || !r.Done? then store0 else store0[g := Bytes(Spec.AddId(place, st0, g, id)[g])])
    && proposals == proposals0 + if raft && r.Done? then [Spec.AddCommand(g, id)] else []
  }

  /** The number of ids that took effect once the next one was answered by r. */
  function DoneAfter(raft: bool, r: Reply, done: nat): nat
  {
    if raft && !r.Done? then done else done + 1
  }

  lemma OneMoreEffect(raft: bool, place: Placement, g: string, ids: seq<uint64>, done: nat, r: Reply, st0: Groups, st: Groups,
                      st': Groups, store: Wire, store': Wire,
                      proposals0: seq<Spec.Command>, proposals: seq<Spec.Command>, proposals': seq<Spec.Command>)
    requires done < |ids| && TookEffect(raft, place, g, ids, done, st0, st, proposals0, proposals)
    requires Handled(raft, place, g, ids[done], r, st, st', store, store', proposals, proposals')
    ensures TookEffect(raft, place, g, ids, DoneAfter(raft, r, done), st0, st', proposals0, proposals')
  {
    assert ids[..done + 1][..done] == ids[..done];
  }

  lemma OneMoreStored(raft: bool, place: Placement, g: string, ids: seq<uint64>, done: nat, r: Reply, st0: Groups, st: Groups,
                      st': Groups, store0: Wire, store: Wire, store': Wire,
                      proposals0: seq<Spec.Command>, proposals: seq<Spec.Command>, proposals': seq<Spec.Command>)
    requires done < |ids| && TookEffect(raft, place, g, ids, done, st0, st, proposals0, proposals)
    requires StoredFirst(raft, place, g, ids, done, st0, store0, store)
    requires Handled(raft, place, g, ids[done], r, st, st', store, store', proposals, proposals')
    ensures StoredFirst(raft, place, g, ids, SavedIds(r, DoneAfter(raft, r, done)), st0, store0, store')
  {
    assert ids[..done + 1][..done] == ids[..done];
  }

  function DisposalOf(raft: bool, r: Reply): Disposal
  {
    if !raft then Inserted(r.Done?) else if r.Done? then Proposed else Refused
  }

  /** Serving one id on its owner is the cluster's step for the first id of a write in flight. */
  lemma HandledIsServe(raft: bool, place: Placement, s: Sys, m: Msg, r: Reply, st: Groups,
                       store0: Wire, store: Wire, proposals0: seq<Spec.Command>, proposals: seq<Spec.Command>)
    requires m.at in s.engines && m.at in s.stores && m.req.Write? && m.req.ids != []
    requires AllParse(store0) && Parsed(store0) == s.stores[m.at]
    requires Handled(raft, place, m.group, m.req.ids[0], r, s.engines[m.at], st, store0, store, proposals0, proposals)
    ensures var s', rest := ServeId(place, s, m, DisposalOf(raft, r)), m.(req := Write(m.req.ids[1..]));
            && s'.engines == s.engines[m.at := st]
            && AllParse(store) && s'.stores == s.stores[m.at := Parsed(store)]
            && s'.proposals == s.proposals
               + (if proposals == proposals0 then multiset{} else multiset{Proposal(m.at, m.group, m.req.ids[0])})
            && s'.inflight == s.inflight - multiset{m} + if r.Done? then multiset{rest} else multiset{}
  {
    if !raft && r.Done? {
      SaveGroup(store0, m.group, st[m.group]);
    }
  }

  /** Without Raft, serving one id is the standalone node's step. */
  lemma HandledIsStandalone(place: Placement, s: Standalone.Sys, g: string, id: uint64, r: Reply, st: Groups, store: Wire,
                            proposals0: seq<Spec.Command>, proposals: seq<Spec.Command>)
    requires Handled(false, place, g, id, r, s.engine, st, s.store, store, proposals0, proposals)
    ensures var s' := Standalone.Take(place, s, Standalone.Add(g, id, r.Done?));
            s'.engine == st && s'.store == store && ((g, id) in s'.acked <==> (g, id) in s.acked || r.Done?)
  {
  }

  class Server {
    const engine: Engine
    const store: Store
    const ring: Router.Router?
    const selfAddr: string
    const raft: bool
    /** What was handed to the Raft node, in Raft mode. */
    var proposals: seq<Spec.Command>

    constructor (engine: Engine, store: Store, ring: Router.Router?, selfAddr: string, raft: bool)
      ensures this.engine == engine && this.store == store && this.ring == ring
      ensures this.selfAddr == selfAddr && this.raft == raft && proposals == []
    {
      this.engine, this.store, this.ring, this.selfAddr, this.raft := engine, store, ring, selfAddr, raft;
      proposals := [];
    }

    ghost predicate Valid()
      reads this, engine, engine.repr, if ring == null then {} else {ring}
    {
      engine.Valid() && (ring != null ==> ring.Valid())
    }

    ghost function Routing(group: string): Route
      reads if ring == null then {} else {ring}
    {
      if ring == null then Local else RouteOf(ring.hash, Some(ring.View()), selfAddr, group)
    }

    method Resolve(group: string) returns (r: Route)
      requires Valid()
      ensures r == Routing(group)
    {
      if ring == null || selfAddr == "" {
        return Local;
      }
      var owner := ring.Resolve(group);
      r := if owner != "" && owner != selfAddr then Forward(owner) else Local;
    }

    /** Route and apply one id; shared by Add and BatchAdd. */
    method AddID(group: string, id: uint64) returns (r: Reply)
      requires Valid()
      modifies `proposals, engine, engine.repr, store
      ensures Valid() && fresh(engine.repr - old(engine.repr))
      ensures Routing(group).Forward? ==>
                r == ForwardTo(Routing(group).owner) && proposals == old(proposals)
                && engine.state == old(engine.state) && store.Saved() == old(store.Saved())
      ensures Routing(group).Local? ==>
                Handled(raft, engine.place, group, id, r, old(engine.state), engine.state,
                        old(store.Saved()), store.Saved(), old(proposals), proposals)
    {
      var route := Resolve(group);
      if route.Forward? {
        return ForwardTo(route.owner);
      }
      if raft {
        var accepted: bool := *;
        if !accepted {
          return Failed(ErrPropose);
        }
        proposals := proposals + [Spec.AddCommand(group, id)];
        return Done;
      }
      var o := engine.AddAndPersist(group, id, store);
      r := if o.Ok? then Done else Failed(o.error);
    }

    /** Add is a batch of one id. */
    method Add(group: string, id: uint64) returns (r: Reply, ghost done: nat)
      requires Valid()
      modifies `proposals, engine, engine.repr, store
      ensures Valid() && fresh(engine.repr - old(engine.repr)) && done <= 1
      ensures group == "" ==> r == Failed(ErrInvalidArgument)
      ensures group != "" && Routing(group).Forward? ==> r == ForwardTo(Routing(group).owner)
      ensures group != "" && Routing(group).Local? ==>
                (r == Done && done == 1) || (r == Failed(ErrPropose) && raft && done == 0)
                || (r == Failed(ErrSave) && !raft && done == 1)
      ensures r == Failed(ErrInvalidArgument) || r.ForwardTo? ==> done == 0 && store.Saved() == old(store.Saved())
      ensures r == Done && !raft ==> group in engine.state && store.Saved() == old(store.Saved())[group := Bytes(engine.state[group])]
      ensures StoredFirst(raft, engine.place, group, [id], SavedIds(r, done), old(engine.state), old(store.Saved()), store.Saved())
      ensures TookEffect(raft, engine.place, group, [id], done, old(engine.state), engine.state, old(proposals), proposals)
    {
      done := 0;
      assert TookEffect(raft, engine.place, group, [id], 0, old(engine.state), engine.state, old(proposals), proposals);
      if group == "" {
        return Failed(ErrInvalidArgument), 0;
      }
      r := AddID(group, id);
      if !r.ForwardTo? {
        done := DoneAfter(raft, r, 0);
        OneMoreEffect(raft, engine.place, group, [id], 0, r, old(engine.state), old(engine.state), engine.state,
                      old(store.Saved()), store.Saved(), old(proposals), old(proposals), proposals);
        OneMoreStored(raft, engine.place, group, [id], 0, r, old(engine.state), old(engine.state), engine.state,
                      old(store.Saved()), old(store.Saved()), store.Saved(), old(proposals), old(proposals), proposals);
      }
    }

    /** Work off a batch this server owns, id by id, stopping at the first error. */
    method AddEach(group: string, ids: seq<uint64>) returns (r: Reply, ghost done: nat)
      requires Valid() && Routing(group).Local?
      modifies `proposals, engine, engine.repr, store
      ensures Valid() && fresh(engine.repr - old(engine.repr)) && done <= |ids|
      ensures TookEffect(raft, engine.place, group, ids, done, old(engine.state), engine.state, old(proposals), proposals)
      ensures (r == Done && done == |ids|) || (r == Failed(ErrPropose) && raft && done < |ids|)
              || (r == Failed(ErrSave) && !raft && done >= 1)
      ensures StoredFirst(raft, engine.place, group, ids, SavedIds(r, done), old(engine.state), old(store.Saved()), store.Saved())
    {
      done := 0;
      for i := 0 to |ids|
        invariant done == i && Valid() && fresh(engine.repr - old(engine.repr)) && Routing(group).Local?
        invariant TookEffect(raft, engine.place, group, ids, i, old(engine.state), engine.state, old(proposals), proposals)
        invariant StoredFirst(raft, engine.place, group, ids, i, old(engine.state), old(store.Saved()), store.Saved())
      {
        ghost var st, saved, sent := engine.state, store.Saved(), proposals;
        var one := AddID(group, ids[i]);
        OneMoreEffect(raft, engine.place, group, ids, i, one, old(engine.state), st, engine.state, saved, store.Saved(),
                      old(proposals), sent, proposals);
        OneMoreStored(raft, engine.place, group, ids, i, one, old(engine.state), st, engine.state,
                      old(store.Saved()), saved, store.Saved(), old(proposals), sent, proposals);
        done := DoneAfter(raft, one, i);
        if one != Done {
          return one, done;
        }
      }
      r := Done;
    }

    /**
      A batch is forwarded whole, or worked off here: on success every id took
      effect; a refused proposal leaves the ids before it proposed; a failed
      save leaves the ids up to and including its own in the engine and those
      before it in the store.
     */
    method BatchAdd(group: string, ids: seq<uint64>) returns (r: Reply, ghost done: nat)
      requires Valid()
      modifies `proposals, engine, engine.repr, store
      ensures Valid() && fresh(engine.repr - old(engine.repr)) && done <= |ids|
      ensures group == "" ==> r == Failed(ErrInvalidArgument)
      ensures group != "" && Routing(group).Forward? ==> r == ForwardTo(Routing(group).owner)
      ensures group != "" && Routing(group).Local? ==>
                (r == Done && done == |ids|) || (r == Failed(ErrPropose) && raft && done < |ids|)
                || (r == Failed(ErrSave) && !raft && done >= 1)
      ensures r == Failed(ErrInvalidArgument) || r.ForwardTo? ==> done == 0 && store.Saved() == old(store.Saved())
      ensures TookEffect(raft, engine.place, group, ids, done, old(engine.state), engine.state, old(proposals), proposals)
      ensures StoredFirst(raft, engine.place, group, ids, SavedIds(r, done), old(engine.state), old(store.Saved()), store.Saved())
    {
      done := 0;
      if group == "" {
        return Failed(ErrInvalidArgument), 0;
      }
      var route := Resolve(group);
      if route.Forward? {
        return ForwardTo(route.owner), 0;
      }
      r, done := AddEach(group, ids);
    }

    method Query(group: string, ln: real -> real) returns (r: Reply, card: int)
      requires Valid()
      ensures group == "" ==> r == Failed(ErrInvalidArgument)
      ensures group != "" && Routing(group).Forward? ==> r == ForwardTo(Routing(group).owner)
      ensures group != "" && Routing(group).Local? ==>
                r == Done && card == if group in engine.state then Rounded(Estimated(ln, engine.state[group])) else 0
    {
      card := 0;
      if group == "" {
        return Failed(ErrInvalidArgument), 0;
      }
      var route := Resolve(group);
      if route.Forward? {
        return ForwardTo(route.owner), 0;
      }
      var c, o := engine.Cardinality(group, ln);
      card := if o.Ok? then c else 0;
      r := Done;
    }
  }
}
