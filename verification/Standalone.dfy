/**
  A node without Raft: many clients add ids, each add and its save being one
  atomic step under the engine's lock; saves may fail and the process may crash
  and restart at any time. What is live and what is durable are followed as
  sets of ids, and the registers are proved to be the sketches of those sets.
 */
module Standalone {
  import opened Base
  import opened Bits
  import opened Commands
  import opened Hll
  import opened Lattice
  import opened WireFormat

  type IdSets = map<string, set<uint64>>

  /** engine and store are the node's state; the rest records which ids were sent, counted, saved and acknowledged. */
  datatype Sys = Sys(engine: Groups, store: Wire,
                     live: IdSets, durable: IdSets, acked: set<(string, uint64)>, sent: set<(string, uint64)>)

  datatype Step = Add(group: string, id: uint64, saveOk: bool) | CrashAndRestart

  function IdsIn(m: IdSets, g: string): set<uint64>
  {
    if g in m then m[g] else {}
  }

  function Take(place: Placement, s: Sys, step: Step): Sys
  {
    match step
    case Add(g, id, saveOk) =>
      var engine := AddId(place, s.engine, g, id);
      var live := s.live[g := IdsIn(s.live, g) + {id}];
      if saveOk then
        Sys(engine, s.store[g := Bytes(engine[g])], live, s.durable[g := live[g]], s.acked + {(g, id)}, s.sent + {(g, id)})
      else
        s.(engine := engine, live := live, sent := s.sent + {(g, id)})
    case CrashAndRestart =>
      if AllParse(s.store) then s.(engine := Parsed(s.store), live := s.durable) else s
  }

  function Run(place: Placement, steps: seq<Step>): Sys
    decreases |steps|
  {
    if steps == [] then Sys(map[], map[], map[], map[], {}, {})
    else Take(place, Run(place, steps[..|steps| - 1]), steps[|steps| - 1])
  }

  /** Each group's registers are the sketch of its ids. */
  ghost predicate Sketches(place: Placement, st: Groups, ids: IdSets)
  {
    st.Keys == ids.Keys && forall g | g in st :: IsSketchOf(place, st[g], ids[g])
  }

  /** Acknowledged ids are durable, durable ids are live, live ids were sent. */
  ghost predicate Ordered(s: Sys)
  {
    && (forall g | g in s.durable :: g in s.live && s.durable[g] <= s.live[g])
    && (forall p | p in s.acked :: p.0 in s.durable && p.1 in s.durable[p.0])
    && (forall g, id | g in s.live && id in s.live[g] :: (g, id) in s.sent)
  }

  ghost predicate Inv(place: Placement, s: Sys)
  {
    && AllParse(s.store)
    && Sketches(place, s.engine, s.live)
    && Sketches(place, Parsed(s.store), s.durable)
    && Ordered(s)
  }

  lemma AddKeepsSketches(place: Placement, st: Groups, ids: IdSets, g: string, id: uint64)
    requires Sketches(place, st, ids)
    ensures Sketches(place, AddId(place, st, g, id), ids[g := IdsIn(ids, g) + {id}])
  {
    assert IsSketchOf(place, RegsOf(st, g), IdsIn(ids, g));
    AddIsInsert(place, RegsOf(st, g), IdsIn(ids, g), id);
  }

  lemma SaveKeepsSketches(place: Placement, store: Wire, ids: IdSets, g: string, r: Regs, rs: set<uint64>)
    requires AllParse(store) && Sketches(place, Parsed(store), ids) && IsSketchOf(place, r, rs)
    ensures AllParse(store[g := Bytes(r)]) && Sketches(place, Parsed(store[g := Bytes(r)]), ids[g := rs])
  {
    SaveGroup(store, g, r);
  }

  lemma AddKeepsOrder(place: Placement, s: Sys, g: string, id: uint64, saveOk: bool)
    requires Ordered(s)
    ensures Ordered(Take(place, s, Add(g, id, saveOk)))
  {
  }

  lemma StepKeepsInv(place: Placement, s: Sys, step: Step)
    requires Inv(place, s)
    ensures Inv(place, Take(place, s, step))
  {
    if step.Add? {
      var Add(g, id, saveOk) := step;
      var s' := Take(place, s, step);
      AddKeepsOrder(place, s, g, id, saveOk);
      AddKeepsSketches(place, s.engine, s.live, g, id);
      if saveOk {
        SaveKeepsSketches(place, s.store, s.durable, g, s'.engine[g], s'.live[g]);
      }
    }
  }

  lemma {:induction false} RunKeepsInv(place: Placement, steps: seq<Step>)
    ensures Inv(place, Run(place, steps))
    decreases |steps|
  {
    if steps != [] {
      RunKeepsInv(place, steps[..|steps| - 1]);
      StepKeepsInv(place, Run(place, steps[..|steps| - 1]), steps[|steps| - 1]);
    }
  }

  /** The registers are the sketch of a set of ids, all of them sent for the group, all acknowledged ones among them. */
  ghost predicate HoldsAcked(place: Placement, s: Sys, g: string, r: Regs)
  {
    exists ids: set<uint64> ::
      && IsSketchOf(place, r, ids)
      && (forall id | id in ids :: (g, id) in s.sent)
      && (forall p | p in s.acked && p.0 == g :: p.1 in ids)
  }

  lemma InvHoldsAcked(place: Placement, s: Sys, g: string)
    requires Inv(place, s) && g in s.store
    ensures HoldsAcked(place, s, g, Parsed(s.store)[g])
  {
  }

  lemma InvStoreBelowEngine(place: Placement, s: Sys)
    requires Inv(place, s)
    ensures Leq(Parsed(s.store), s.engine)
  {
  }

  /**
    After any interleaving of adds, failed saves and crashes: the store parses
    and is below the live engine; every acknowledged id's group is stored; and
    what is stored for a group is the sketch of ids that were sent, all
    acknowledged ones included.
   */
  lemma AcknowledgedIdsAreDurable(place: Placement, steps: seq<Step>)
    ensures var s := Run(place, steps);
            && AllParse(s.store)
            && Leq(Parsed(s.store), s.engine)
            && (forall p | p in s.acked :: p.0 in s.store)
            && (forall g | g in s.store :: HoldsAcked(place, s, g, Parsed(s.store)[g]))
  {
    RunKeepsInv(place, steps);
    var s := Run(place, steps);
    InvStoreBelowEngine(place, s);
    forall p | p in s.acked ensures p.0 in s.store {
      assert p.0 in Parsed(s.store);
    }
    forall g | g in s.store ensures HoldsAcked(place, s, g, Parsed(s.store)[g]) {
      InvHoldsAcked(place, s, g);
    }
  }

  /** A successful add leaves store and engine equal on its group, also after earlier failed saves. */
  lemma SuccessfulAddSynchronises(place: Placement, steps: seq<Step>, g: string, id: uint64)
    ensures var s := Run(place, steps + [Add(g, id, true)]);
            AllParse(s.store) && g in s.store && g in s.engine && Parsed(s.store)[g] == s.engine[g]
  {
    var all := steps + [Add(g, id, true)];
    RunKeepsInv(place, all);
    assert all[..|all| - 1] == steps;
    RunKeepsInv(place, steps);
    var before := Run(place, steps);
    SaveGroup(before.store, g, AddId(place, before.engine, g, id)[g]);
  }

  // ---- runs, told by the steps alone -------------------------------------

  predicate AddsAt(steps: seq<Step>, k: nat, g: string, id: uint64)
  {
    k < |steps| && steps[k].Add? && steps[k].group == g && steps[k].id == id
  }

  predicate SavesAt(steps: seq<Step>, k: nat, g: string)
  {
    k < |steps| && steps[k].Add? && steps[k].group == g && steps[k].saveOk
  }

  predicate NoCrash(steps: seq<Step>, i: nat, j: nat)
    requires j <= |steps|
  {
    forall k | i <= k < j :: steps[k] != CrashAndRestart
  }

  /** The id was added and, before any crash, some add to the same group was saved. */
  ghost predicate SavedInTime(steps: seq<Step>, k: nat, m: nat, g: string, id: uint64)
  {
    k <= m && AddsAt(steps, k, g, id) && SavesAt(steps, m, g) && NoCrash(steps, k, m)
  }

  ghost predicate IsDurable(steps: seq<Step>, g: string, id: uint64)
  {
    exists k: nat, m: nat :: SavedInTime(steps, k, m, g, id)
  }

  ghost predicate AddedSince(steps: seq<Step>, k: nat, g: string, id: uint64)
  {
    AddsAt(steps, k, g, id) && NoCrash(steps, k, |steps|)
  }

  /** The id is durable, or was added since the last crash. */
  ghost predicate IsLive(steps: seq<Step>, g: string, id: uint64)
  {
    IsDurable(steps, g, id) || exists k: nat :: AddedSince(steps, k, g, id)
  }

  lemma StaysDurable(steps: seq<Step>, g: string, id: uint64)
    requires steps != [] && IsDurable(steps[..|steps| - 1], g, id)
    ensures IsDurable(steps, g, id)
  {
    var k: nat, m: nat :| SavedInTime(steps[..|steps| - 1], k, m, g, id);
    assert SavedInTime(steps, k, m, g, id);
  }

  /** Durable before the last step already, or made so by it. */
  lemma DurableBefore(steps: seq<Step>, g: string, id: uint64)
    requires steps != [] && IsDurable(steps, g, id)
    ensures IsDurable(steps[..|steps| - 1], g, id) || SavesAt(steps, |steps| - 1, g)
  {
    var k: nat, m: nat :| SavedInTime(steps, k, m, g, id);
    if m < |steps| - 1 {
      assert SavedInTime(steps[..|steps| - 1], k, m, g, id);
    }
  }

  lemma LiveAfterAdd(steps: seq<Step>, g: string, id: uint64)
    requires steps != [] && steps[|steps| - 1].Add?
    ensures IsLive(steps, g, id) <==> IsLive(steps[..|steps| - 1], g, id) || AddsAt(steps, |steps| - 1, g, id)
  {
    var n := |steps| - 1;
    var init := steps[..n];
    if IsDurable(init, g, id) {
      StaysDurable(steps, g, id);
    } else if k: nat :| AddedSince(init, k, g, id) {
      assert AddedSince(steps, k, g, id);
    }
    if AddsAt(steps, n, g, id) {
      assert AddedSince(steps, n, g, id);
    }
    if k: nat, m: nat :| SavedInTime(steps, k, m, g, id) {
      EarlierLive(steps, k, m, g, id);
    }
    if k: nat :| AddedSince(steps, k, g, id) && k < n {
      assert AddedSince(init, k, g, id);
    }
  }

  lemma EarlierLive(steps: seq<Step>, k: nat, m: nat, g: string, id: uint64)
    requires steps != [] && SavedInTime(steps, k, m, g, id)
    ensures IsLive(steps[..|steps| - 1], g, id) || AddsAt(steps, |steps| - 1, g, id)
  {
    var n := |steps| - 1;
    if m < n {
      assert SavedInTime(steps[..n], k, m, g, id);
    } else if k < n {
      assert AddedSince(steps[..n], k, g, id);
    }
  }

  lemma DurableAfterSave(steps: seq<Step>, g: string, id: uint64)
    requires steps != [] && SavesAt(steps, |steps| - 1, g)
    ensures IsDurable(steps, g, id) <==> IsLive(steps, g, id)
  {
    if k: nat :| AddedSince(steps, k, g, id) {
      assert SavedInTime(steps, k, |steps| - 1, g, id);
    }
  }

  lemma DurableElse(steps: seq<Step>, g: string, id: uint64)
    requires steps != [] && !SavesAt(steps, |steps| - 1, g)
    ensures IsDurable(steps, g, id) <==> IsDurable(steps[..|steps| - 1], g, id)
  {
    if IsDurable(steps, g, id) {
      DurableBefore(steps, g, id);
    } else if IsDurable(steps[..|steps| - 1], g, id) {
      StaysDurable(steps, g, id);
    }
  }

  lemma LiveAfterCrash(steps: seq<Step>, g: string, id: uint64)
    requires steps != [] && steps[|steps| - 1].CrashAndRestart?
    ensures IsLive(steps, g, id) <==> IsDurable(steps[..|steps| - 1], g, id)
  {
    DurableElse(steps, g, id);
    forall k: nat ensures !AddedSince(steps, k, g, id) {
    }
  }

  predicate SavedAddAt(steps: seq<Step>, k: nat, g: string, id: uint64)
  {
    AddsAt(steps, k, g, id) && steps[k].saveOk
  }

  /** Sent are the ids of all adds, acknowledged those of the saved ones. */
  lemma {:induction false} SentAndAckedExact(place: Placement, steps: seq<Step>, g: string, id: uint64)
    ensures (g, id) in Run(place, steps).sent <==> exists k: nat :: AddsAt(steps, k, g, id)
    ensures (g, id) in Run(place, steps).acked <==> exists k: nat :: SavedAddAt(steps, k, g, id)
    decreases |steps|
  {
    if steps != [] {
      var n := |steps| - 1;
      var init := steps[..n];
      SentAndAckedExact(place, init, g, id);
      if k: nat :| AddsAt(init, k, g, id) {
        assert AddsAt(steps, k, g, id);
      }
      if k: nat :| AddsAt(steps, k, g, id) && k < n {
        assert AddsAt(init, k, g, id);
      }
      if k: nat :| SavedAddAt(init, k, g, id) {
        assert SavedAddAt(steps, k, g, id);
      }
      if k: nat :| SavedAddAt(steps, k, g, id) && k < n {
        assert SavedAddAt(init, k, g, id);
      }
      assert AddsAt(steps, n, g, id) || ((g, id) in Run(place, steps).sent <==> (g, id) in Run(place, init).sent);
      assert SavedAddAt(steps, n, g, id) || ((g, id) in Run(place, steps).acked <==> (g, id) in Run(place, init).acked);
    }
  }

  /** The recorded id sets are those the steps alone determine. */
  lemma {:induction false} RecordsExact(place: Placement, steps: seq<Step>, g: string, id: uint64)
    ensures id in IdsIn(Run(place, steps).live, g) <==> IsLive(steps, g, id)
    ensures id in IdsIn(Run(place, steps).durable, g) <==> IsDurable(steps, g, id)
    decreases |steps|
  {
    if steps != [] {
      var init, last := steps[..|steps| - 1], steps[|steps| - 1];
      RecordsExact(place, init, g, id);
      RunKeepsInv(place, init);
      if last.Add? {
        LiveAfterAdd(steps, g, id);
      } else {
        LiveAfterCrash(steps, g, id);
      }
      if SavesAt(steps, |steps| - 1, g) {
        DurableAfterSave(steps, g, id);
      } else {
        DurableElse(steps, g, id);
      }
      RecordsStep(place, Run(place, init), last, g);
    }
  }

  lemma RecordsStep(place: Placement, s: Sys, step: Step, g: string)
    requires AllParse(s.store)
    ensures var s' := Take(place, s, step);
            && IdsIn(s'.live, g)
               == (if step.CrashAndRestart? then IdsIn(s.durable, g)
                   else IdsIn(s.live, g) + if step.group == g then {step.id} else {})
            && IdsIn(s'.durable, g)
               == if step.Add? && step.group == g && step.saveOk then IdsIn(s'.live, g) else IdsIn(s.durable, g)
  {
  }

  /**
    Exactly what a node holds after any steps: the live registers of a group are
    the sketch of the ids added since the last crash or saved in time before
    one, the stored registers that of the ids saved in time.
   */
  lemma EngineAndStoreExact(place: Placement, steps: seq<Step>, g: string)
    ensures var s := Run(place, steps);
            && AllParse(s.store)
            && (g in s.engine ==>
                  exists ids :: IsSketchOf(place, s.engine[g], ids) && forall id :: id in ids <==> IsLive(steps, g, id))
            && (g in s.store ==>
                  exists ids :: IsSketchOf(place, Parsed(s.store)[g], ids) && forall id :: id in ids <==> IsDurable(steps, g, id))
            && (forall id :: IsLive(steps, g, id) ==> g in s.engine)
            && (forall id :: IsDurable(steps, g, id) ==> g in s.store)
  {
    var s := Run(place, steps);
    RunKeepsInv(place, steps);
    forall id: uint64
      ensures id in IdsIn(s.live, g) <==> IsLive(steps, g, id)
      ensures id in IdsIn(s.durable, g) <==> IsDurable(steps, g, id)
    {
      RecordsExact(place, steps, g, id);
    }
    assert g in s.engine <==> g in s.live;
    assert g in Parsed(s.store) <==> g in s.durable;
  }
}
