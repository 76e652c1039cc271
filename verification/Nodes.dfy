/**
  The Raft node's apply loop and snapshot trigger, as they run against a live
  engine and store. Each is proved against the state machine of module Replica.
 */
module Nodes {
  import opened Base
  import opened Bits
  import Spec = Commands
  import opened Engines
  import opened HandlerRegistry
  import opened Lattice
  import opened Replica
  import opened Storage
  import opened WireFormat

  lemma RejectedTurn(place: Placement, f: Fsm, e: Entry, st: Groups, o: Outcome)
    requires IsCommand(e) && Spec.Applied(st, o) == Spec.Dispatch(place, f.engine, e.data.cmd) && o.Err?
    ensures Process(place, f, e, false) == f.(engine := st)
  {
  }

  lemma AcceptedTurn(place: Placement, f: Fsm, e: Entry, st: Groups, store: Wire, saved: bool)
    requires IsCommand(e) && Spec.Applied(st, Ok) == Spec.Dispatch(place, f.engine, e.data.cmd)
    requires saved ==> e.data.cmd.group in st && store == f.store[e.data.cmd.group := Hll.Bytes(st[e.data.cmd.group])]
    requires !saved ==> store == f.store
    ensures Process(place, f, e, saved) == Fsm(st, store, e.index, f.snapCount + 1)
  {
  }

  lemma OneMoreTurn(place: Placement, f: Fsm, entries: seq<Entry>, k: nat, saves: seq<bool>, saved: bool)
    requires k < |entries| && |saves| == k
    ensures ProcessAll(place, f, entries[..k + 1], saves + [saved])
         == Process(place, ProcessAll(place, f, entries[..k], saves), entries[k], saved)
  {
    assert entries[..k + 1][..k] == entries[..k] && (saves + [saved])[..k] == saves;
  }

  class Node {
    const engine: Engine
    const store: Store
    const registry: Registry
    var appliedIdx: nat
    var snapCount: nat
    var snap: Option<Snapshot>

    ghost predicate Valid()
      reads this, engine, engine.repr, registry
    {
      engine.Valid() && registry.m == Spec.DefaultHandlers()
    }

    ghost function View(): Fsm
      requires Valid()
      reads this, engine, engine.repr, registry, store
    {
      Fsm(engine.state, store.Saved(), appliedIdx, snapCount)
    }

    constructor (engine: Engine, store: Store)
      requires engine.Valid()
      ensures Valid() && this.engine == engine && this.store == store && fresh(registry)
      ensures View() == Fsm(engine.state, store.Saved(), 0, 0) && snap == None
    {
      this.engine, this.store := engine, store;
      registry := new Registry.Default();
      appliedIdx, snapCount, snap := 0, 0, None;
    }

    /** One turn of the loop; `saved` tells whether the store accepted the write. */
    method ApplyEntry(e: Entry) returns (ghost saved: bool)
      requires Valid()
      modifies `appliedIdx, `snapCount, engine, engine.repr, store
      ensures Valid() && fresh(engine.repr - old(engine.repr))
      ensures View() == Process(engine.place, old(View()), e, saved)
    {
      saved := false;
      if !e.normal || !e.data.Holds? {
        return;
      }
      var cmd := e.data.cmd;
      ghost var f := View();
      var o := registry.Dispatch(cmd, engine);
      if o.Err? {
        RejectedTurn(engine.place, f, e, engine.state, o);
        return;
      }
      saved := PersistAndCount(cmd.group, e.index);
      AcceptedTurn(engine.place, f, e, engine.state, store.Saved(), saved);
    }

    /** Save the group's live sketch; whether or not that works, the entry counts as applied. */
    method PersistAndCount(group: string, index: nat) returns (ghost saved: bool)
      requires Valid()
      modifies `appliedIdx, `snapCount, store
      ensures Valid() && appliedIdx == index && snapCount == old(snapCount) + 1
      ensures saved ==> group in engine.state
      ensures store.Saved() == if saved then old(store.Saved())[group := Hll.Bytes(engine.state[group])] else old(store.Saved())
    {
      var o := engine.Persist(group, store);
      saved := o.Ok?;
      appliedIdx, snapCount := index, snapCount + 1;
    }

    method ApplyEntries(entries: seq<Entry>) returns (ghost saves: seq<bool>)
      requires Valid()
      modifies `appliedIdx, `snapCount, engine, engine.repr, store
      ensures Valid() && fresh(engine.repr - old(engine.repr))
      ensures |saves| == |entries|
      ensures View() == ProcessAll(engine.place, old(View()), entries, saves)
    {
      saves := [];
      for k := 0 to |entries|
        invariant Valid() && fresh(engine.repr - old(engine.repr))
        invariant |saves| == k && View() == ProcessAll(engine.place, old(View()), entries[..k], saves)
      {
        ghost var saved := ApplyEntry(entries[k]);
        OneMoreTurn(engine.place, old(View()), entries, k, saves, saved);
        saves := saves + [saved];
      }
      assert entries[..|entries|] == entries;
    }

    /** The Raft storage may refuse the snapshot (`storageOk` false); then the count is kept and the next turn tries again. */
    method MaybeSnapshot(storageOk: bool)
      requires Valid()
      modifies `snapCount, `snap
      ensures Valid()
      ensures if old(snapCount) < 10_000 || !storageOk then
                snap == old(snap) && View() == old(View())
              else
                View() == old(View()).(snapCount := 0)
                && snap == Some(Snapshot(Marshal(old(View()).engine), old(appliedIdx)))
    {
      if snapCount < SNAPSHOT_THRESHOLD {
        return;
      }
      var idx := appliedIdx;
      var data := engine.MarshalAll();
      if !storageOk {
        return;
      }
      snap := Some(Snapshot(data, idx));
      snapCount := 0;
    }
  }
}
