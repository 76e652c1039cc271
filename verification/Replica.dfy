/**
  One Raft node as a state machine: committed entries are applied one at a
  time, each successful one is persisted, snapshots are cut, the process
  crashes and restarts from the store with an empty log. The theorems are about
  every run of that machine, for every placement of ids.
 */
module Replica {
  import opened Base
  import opened Bits
  import opened Commands
  import opened Hll
  import opened Lattice
  import opened WireFormat

  // ---- log entries and replay --------------------------------------------

  /** What the bytes of an entry decode to. */
  datatype Data = Blank | Garbled | Holds(cmd: Command)

  datatype Entry = Entry(index: nat, normal: bool, data: Data)

  predicate IsCommand(e: Entry)
  {
    e.normal && e.data.Holds?
  }

  function EntryEffect(place: Placement, e: Entry): Groups
  {
    if IsCommand(e) then Effect(place, e.data.cmd) else map[]
  }

  /** Dispatch of the entry succeeds; by DispatchIsJoin the state does not matter. */
  predicate Accepted(place: Placement, e: Entry)
  {
    IsCommand(e) && Dispatch(place, map[], e.data.cmd).outcome.Ok?
  }

  /** The engine after the entries of a log, in order. */
  function Replay(place: Placement, st: Groups, log: seq<Entry>): Groups
    decreases |log|
  {
    if log == [] then st
    else
      var before, e := Replay(place, st, log[..|log| - 1]), log[|log| - 1];
      if IsCommand(e) then Dispatch(place, before, e.data.cmd).groups else before
  }

  lemma JoinNothing(st: Groups)
    ensures Join(st, map[]) == st
  {
  }

  lemma ReplayLast(place: Placement, st: Groups, log: seq<Entry>)
    requires log != []
    ensures Replay(place, st, log) == Join(Replay(place, st, log[..|log| - 1]), EntryEffect(place, log[|log| - 1]))
  {
    var before, e := Replay(place, st, log[..|log| - 1]), log[|log| - 1];
    if IsCommand(e) {
      DispatchIsJoin(place, before, e.data.cmd);
    } else {
      JoinNothing(before);
    }
  }

  /** Every entry's effect is in the final state ... */
  lemma {:induction false} ReplayUpper(place: Placement, st: Groups, log: seq<Entry>)
    ensures Leq(st, Replay(place, st, log))
    ensures forall e | e in log :: Leq(EntryEffect(place, e), Replay(place, st, log))
    decreases |log|
  {
    if log != [] {
      var init, last := log[..|log| - 1], log[|log| - 1];
      var before, after := Replay(place, st, init), Replay(place, st, log);
      ReplayUpper(place, st, init);
      ReplayLast(place, st, log);
      JoinUpper(before, EntryEffect(place, last));
      LeqTransitive(st, before, after);
      forall e | e in log ensures Leq(EntryEffect(place, e), after) {
        if e in init {
          LeqTransitive(EntryEffect(place, e), before, after);
        }
      }
    }
  }

  /** ... and nothing beyond the initial state and the effects is. */
  lemma {:induction false} ReplayLeast(place: Placement, st: Groups, log: seq<Entry>, u: Groups)
    requires Leq(st, u)
    requires forall e | e in log :: Leq(EntryEffect(place, e), u)
    ensures Leq(Replay(place, st, log), u)
    decreases |log|
  {
    if log != [] {
      var init, last := log[..|log| - 1], log[|log| - 1];
      ReplayLeast(place, st, init, u);
      ReplayLast(place, st, log);
      assert last in log;
      JoinLeast(Replay(place, st, init), EntryEffect(place, last), u);
    }
  }

  /** Two logs reach the same engine whenever each one's effects are covered by the other's result. */
  lemma ReplayEqual(place: Placement, st: Groups, log: seq<Entry>, st': Groups, log': seq<Entry>)
    requires Leq(st, Replay(place, st', log')) && Leq(st', Replay(place, st, log))
    requires forall e | e in log :: Leq(EntryEffect(place, e), Replay(place, st', log'))
    requires forall e | e in log' :: Leq(EntryEffect(place, e), Replay(place, st, log))
    ensures Replay(place, st, log) == Replay(place, st', log')
  {
    ReplayLeast(place, st, log, Replay(place, st', log'));
    ReplayLeast(place, st', log', Replay(place, st, log));
    LeqAntisymmetric(Replay(place, st, log), Replay(place, st', log'));
  }

  function CommandsIn(log: seq<Entry>): set<Command>
  {
    set e | e in log && IsCommand(e) :: e.data.cmd
  }

  lemma CoveredByCommands(place: Placement, log: seq<Entry>, log': seq<Entry>, st: Groups)
    requires CommandsIn(log) <= CommandsIn(log')
    ensures forall e | e in log :: Leq(EntryEffect(place, e), Replay(place, st, log'))
  {
    ReplayUpper(place, st, log');
    forall e | e in log ensures Leq(EntryEffect(place, e), Replay(place, st, log')) {
      if IsCommand(e) {
        assert e.data.cmd in CommandsIn(log');
        var e' :| e' in log' && IsCommand(e') && e'.data.cmd == e.data.cmd;
        assert EntryEffect(place, e') == EntryEffect(place, e);
      }
    }
  }

  /** Convergence: order, repetition, failed and half-decoded commands included, only the set of commands matters. */
  lemma ReplayOrderIrrelevant(place: Placement, st: Groups, log: seq<Entry>, log': seq<Entry>)
    requires CommandsIn(log) == CommandsIn(log')
    ensures Replay(place, st, log) == Replay(place, st, log')
  {
    CoveredByCommands(place, log, log', st);
    CoveredByCommands(place, log', log, st);
    ReplayUpper(place, st, log);
    ReplayUpper(place, st, log');
    ReplayEqual(place, st, log, st, log');
  }

  // ---- one turn of the apply loop ----------------------------------------

  datatype Fsm = Fsm(engine: Groups, store: Wire, appliedIdx: nat, snapCount: nat)

  function Process(place: Placement, f: Fsm, e: Entry, saveOk: bool): Fsm
  {
    if !IsCommand(e) then f
    else
      var g, d := e.data.cmd.group, Dispatch(place, f.engine, e.data.cmd);
      if d.outcome.Err? then f.(engine := d.groups)
      else
        var store := if g in d.groups && saveOk then f.store[g := Bytes(d.groups[g])] else f.store;
        Fsm(d.groups, store, e.index, f.snapCount + 1)
  }

  /** Configuration changes, blank entries and garbled ones leave the node as it was. */
  lemma OtherEntriesSkipped(place: Placement, f: Fsm, e: Entry, saveOk: bool)
    requires !e.normal || e.data == Blank || e.data == Garbled
    ensures Process(place, f, e, saveOk) == f && EntryEffect(place, e) == map[] && !Accepted(place, e)
  {
  }

  function ProcessAll(place: Placement, f: Fsm, entries: seq<Entry>, saves: seq<bool>): Fsm
    requires |saves| == |entries|
    decreases |entries|
  {
    if entries == [] then f
    else
      var n := |entries| - 1;
      Process(place, ProcessAll(place, f, entries[..n], saves[..n]), entries[n], saves[n])
  }

  /** The store parses and holds nothing the live engine lacks. */
  predicate Consistent(f: Fsm)
  {
    AllParse(f.store) && Leq(Parsed(f.store), f.engine)
  }

  lemma ProcessEngine(place: Placement, f: Fsm, e: Entry, saveOk: bool)
    ensures Process(place, f, e, saveOk).engine == Join(f.engine, EntryEffect(place, e))
    ensures Accepted(place, e) <==> IsCommand(e) && Dispatch(place, f.engine, e.data.cmd).outcome.Ok?
  {
    JoinNothing(f.engine);
    if IsCommand(e) {
      DispatchIsJoin(place, f.engine, e.data.cmd);
    }
  }

  /** A turn keeps the store consistent and never shrinks it. */
  lemma ProcessKeepsStore(place: Placement, f: Fsm, e: Entry, saveOk: bool)
    requires Consistent(f)
    ensures var f' := Process(place, f, e, saveOk);
            Consistent(f') && Leq(Parsed(f.store), Parsed(f'.store))
  {
    var f' := Process(place, f, e, saveOk);
    ProcessEngine(place, f, e, saveOk);
    JoinUpper(f.engine, EntryEffect(place, e));
    LeqTransitive(Parsed(f.store), f.engine, f'.engine);
    if f'.store != f.store {
      var g := e.data.cmd.group;
      SaveGroup(f.store, g, f'.engine[g]);
    }
  }

  /** After a turn whose save went through, the store covers the entry. */
  lemma SavedIsCovered(place: Placement, f: Fsm, e: Entry)
    requires Consistent(f) && Accepted(place, e)
    ensures var f' := Process(place, f, e, true);
            AllParse(f'.store) && Leq(EntryEffect(place, e), Parsed(f'.store))
  {
    var g, f' := e.data.cmd.group, Process(place, f, e, true);
    ProcessEngine(place, f, e, true);
    ProcessKeepsStore(place, f, e, true);
    EffectIsLocal(place, e.data.cmd);
    JoinUpper(f.engine, EntryEffect(place, e));
    if g in f'.engine {
      SaveGroup(f.store, g, f'.engine[g]);
    }
  }

  /** When the entry's own turn makes it durable: unless the store had it already, dispatch and save must both succeed. */
  lemma DurableIff(place: Placement, f: Fsm, e: Entry, saveOk: bool)
    requires Consistent(f) && !Leq(EntryEffect(place, e), Parsed(f.store))
    ensures AllParse(Process(place, f, e, saveOk).store)
    ensures Leq(EntryEffect(place, e), Parsed(Process(place, f, e, saveOk).store)) <==> Accepted(place, e) && saveOk
  {
    ProcessKeepsStore(place, f, e, saveOk);
    ProcessEngine(place, f, e, saveOk);
    if Accepted(place, e) && saveOk {
      SavedIsCovered(place, f, e);
    }
  }

  /** The turn writes group g to the store: the entry is a command for g and its dispatch and its save succeed. */
  predicate Saves(place: Placement, e: Entry, saveOk: bool, g: string)
  {
    Accepted(place, e) && saveOk && e.data.cmd.group == g
  }

  /** One turn: a save copies the whole live group, whatever entries it came from; otherwise the stored group stays. */
  lemma TurnStore(place: Placement, f: Fsm, e: Entry, saveOk: bool, g: string)
    requires Consistent(f)
    ensures var f' := Process(place, f, e, saveOk);
            && Consistent(f')
            && Lookup(Parsed(f'.store), g)
               == if Saves(place, e, saveOk, g) then Lookup(f'.engine, g) else Lookup(Parsed(f.store), g)
  {
    var f' := Process(place, f, e, saveOk);
    ProcessKeepsStore(place, f, e, saveOk);
    ProcessEngine(place, f, e, saveOk);
    if Accepted(place, e) && saveOk && e.data.cmd.group in f'.engine {
      SaveGroup(f.store, e.data.cmd.group, f'.engine[e.data.cmd.group]);
    }
  }

  lemma {:induction false} ProcessAllConsistent(place: Placement, f: Fsm, entries: seq<Entry>, saves: seq<bool>)
    requires Consistent(f) && |saves| == |entries|
    ensures Consistent(ProcessAll(place, f, entries, saves))
    decreases |entries|
  {
    if entries != [] {
      var n := |entries| - 1;
      ProcessAllConsistent(place, f, entries[..n], saves[..n]);
      ProcessKeepsStore(place, ProcessAll(place, f, entries[..n], saves[..n]), entries[n], saves[n]);
    }
  }

  /** n counts the turns up to and including the last one that saves g; it is 0 if none does. */
  ghost predicate IsLastSave(place: Placement, entries: seq<Entry>, saves: seq<bool>, g: string, n: nat)
    requires |saves| == |entries|
  {
    && n <= |entries| && (n > 0 ==> Saves(place, entries[n - 1], saves[n - 1], g))
    && forall k | n <= k < |entries| :: !Saves(place, entries[k], saves[k], g)
  }

  lemma ShorterLastSave(place: Placement, entries: seq<Entry>, saves: seq<bool>, g: string, n: nat)
    requires |saves| == |entries| && IsLastSave(place, entries, saves, g, n) && n < |entries|
    ensures var last := |entries| - 1;
            !Saves(place, entries[last], saves[last], g) && IsLastSave(place, entries[..last], saves[..last], g, n)
  {
  }

  /** TurnStore for the last turn of a batch. */
  lemma LastTurnStore(place: Placement, f: Fsm, entries: seq<Entry>, saves: seq<bool>, g: string)
    requires Consistent(f) && |saves| == |entries| && entries != []
    ensures var last := |entries| - 1;
            var before, after := ProcessAll(place, f, entries[..last], saves[..last]), ProcessAll(place, f, entries, saves);
            && Consistent(before) && Consistent(after)
            && Lookup(Parsed(after.store), g)
               == if Saves(place, entries[last], saves[last], g) then Lookup(after.engine, g)
                  else Lookup(Parsed(before.store), g)
  {
    var last := |entries| - 1;
    ProcessAllConsistent(place, f, entries[..last], saves[..last]);
    TurnStore(place, ProcessAll(place, f, entries[..last], saves[..last]), entries[last], saves[last], g);
  }

  /**
    The store, exactly: a group is stored as it was live right after the last
    turn that saved it, and as before the batch if no turn did.
   */
  lemma {:induction false} StoreIsLastSave(place: Placement, f: Fsm, entries: seq<Entry>, saves: seq<bool>,
                                           g: string, n: nat)
    requires Consistent(f) && |saves| == |entries| && IsLastSave(place, entries, saves, g, n)
    ensures var f' := ProcessAll(place, f, entries, saves);
            && Consistent(f')
            && Lookup(Parsed(f'.store), g)
               == if n == 0 then Lookup(Parsed(f.store), g)
                  else Lookup(ProcessAll(place, f, entries[..n], saves[..n]).engine, g)
    decreases |entries|
  {
    ProcessAllConsistent(place, f, entries, saves);
    if entries == [] {
    } else if n == |entries| {
      LastTurnStore(place, f, entries, saves, g);
      assert entries[..n] == entries && saves[..n] == saves;
    } else {
      var last := |entries| - 1;
      var init, saves' := entries[..last], saves[..last];
      ShorterLastSave(place, entries, saves, g, n);
      StoreIsLastSave(place, f, init, saves', g, n);
      LastTurnStore(place, f, entries, saves, g);
      assert entries[..n] == init[..n] && saves[..n] == saves'[..n];
    }
  }

  // ---- the machine -------------------------------------------------------

  const SNAPSHOT_THRESHOLD := 10_000

  datatype Snapshot = Snapshot(data: Wire, index: nat)

  /**
    fsm, log (in memory, of this incarnation), next (entries already handed to
    the apply loop) and snap are the node's state. The other fields only record
    history: how many entries had been handed over when the snapshot was cut,
    the engine at startup, every entry ever committed in any incarnation, and
    every entry whose dispatch and save both succeeded.
   */
  datatype Sys = Sys(fsm: Fsm, log: seq<Entry>, next: nat, snap: Option<Snapshot>,
                     snapAt: nat, base: Groups, committed: seq<Entry>, saved: seq<Entry>)

  datatype Step =
    | Commit(e: Entry)
    | ApplyNext(saveOk: bool)
    | MaybeSnapshot(storageOk: bool)
    | CrashAndRestart

  function Start(): Sys
  {
    Sys(Fsm(map[], map[], 0, 0), [], 0, None, 0, map[], [], [])
  }

  predicate Enabled(s: Sys, step: Step)
  {
    match step
    case Commit(e) => e.index > 0 && (s.log != [] ==> e.index > s.log[|s.log| - 1].index)
    case ApplyNext(_) => s.next < |s.log|
    case MaybeSnapshot(_) => true
    case CrashAndRestart => AllParse(s.fsm.store)
  }

  function Take(place: Placement, s: Sys, step: Step): Sys
    requires Enabled(s, step)
  {
    match step
    case Commit(e) => s.(log := s.log + [e], committed := s.committed + [e])
    case ApplyNext(saveOk) =>
      var e := s.log[s.next];
      s.(fsm := Process(place, s.fsm, e, saveOk),
         next := s.next + 1,
         saved := if Accepted(place, e) && saveOk then s.saved + [e] else s.saved)
    case MaybeSnapshot(storageOk) =>
      if s.fsm.snapCount < SNAPSHOT_THRESHOLD || !storageOk then s
      else s.(snap := Some(Snapshot(Marshal(s.fsm.engine), s.fsm.appliedIdx)), snapAt := s.next, fsm := s.fsm.(snapCount := 0))
    case CrashAndRestart =>
      var engine := Parsed(s.fsm.store);
      Sys(Fsm(engine, s.fsm.store, 0, 0), [], 0, None, 0, engine, s.committed, s.saved)
  }

  /** The index of the last entry that was counted as applied, 0 if none was. */
  function LastAccepted(place: Placement, log: seq<Entry>): nat
    decreases |log|
  {
    if log == [] then 0
    else if Accepted(place, log[|log| - 1]) then log[|log| - 1].index
    else LastAccepted(place, log[..|log| - 1])
  }

  predicate Increasing(log: seq<Entry>)
  {
    && (forall i | 0 <= i < |log| :: log[i].index > 0)
    && (forall i, j | 0 <= i < j < |log| :: log[i].index < log[j].index)
  }

  function CountAccepted(place: Placement, log: seq<Entry>): nat
    decreases |log|
  {
    if log == [] then 0
    else CountAccepted(place, log[..|log| - 1]) + if Accepted(place, log[|log| - 1]) then 1 else 0
  }

  /** The snapshot is the state it was cut from, and snapCount is what was accepted since. */
  ghost predicate SnapshotInv(place: Placement, s: Sys)
  {
    && s.snapAt <= s.next <= |s.log|
    && s.fsm.snapCount + CountAccepted(place, s.log[..s.snapAt]) == CountAccepted(place, s.log[..s.next])
    && (s.snap.Some? ==>
          && s.snap.value.data == Marshal(Replay(place, s.base, s.log[..s.snapAt]))
          && s.snap.value.index == LastAccepted(place, s.log[..s.snapAt]))
  }

  ghost predicate Inv(place: Placement, s: Sys)
  {
    && Consistent(s.fsm)
    && s.next <= |s.log|
    && Increasing(s.log)
    && s.fsm.engine == Replay(place, s.base, s.log[..s.next])
    && s.fsm.appliedIdx == LastAccepted(place, s.log[..s.next])
    && (forall e | e in s.log :: e in s.committed)
    && (forall e | e in s.saved :: e in s.committed && Leq(EntryEffect(place, e), Parsed(s.fsm.store)))
    && Leq(s.base, Replay(place, map[], s.committed))
    && SnapshotInv(place, s)
  }

  /** The live engine, and with it the store, stays below the join of everything ever committed. */
  lemma EngineBelowCommitted(place: Placement, s: Sys)
    requires Inv(place, s)
    ensures Leq(s.fsm.engine, Replay(place, map[], s.committed))
    ensures Leq(Parsed(s.fsm.store), Replay(place, map[], s.committed))
  {
    var all := Replay(place, map[], s.committed);
    ReplayUpper(place, map[], s.committed);
    ReplayLeast(place, s.base, s.log[..s.next], all);
    LeqTransitive(Parsed(s.fsm.store), s.fsm.engine, all);
  }

  lemma ReplayGrows(place: Placement, base: Groups, log: seq<Entry>, e: Entry)
    requires Leq(base, Replay(place, map[], log))
    ensures Leq(base, Replay(place, map[], log + [e]))
  {
    ReplayLast(place, map[], log + [e]);
    assert (log + [e])[..|log|] == log;
    JoinUpper(Replay(place, map[], log), EntryEffect(place, e));
    LeqTransitive(base, Replay(place, map[], log), Replay(place, map[], log + [e]));
  }

  lemma CommitKeepsLog(place: Placement, s: Sys, e: Entry)
    requires Inv(place, s) && Enabled(s, Commit(e))
    ensures var s' := Take(place, s, Commit(e));
            && Increasing(s'.log) && s'.fsm == s.fsm && s'.base == s.base && s'.saved == s.saved
            && s'.log[..s.next] == s.log[..s.next] && s'.log[..s.snapAt] == s.log[..s.snapAt]
            && (forall x | x in s'.log :: x in s'.committed)
  {
  }

  lemma CommitKeepsSaved(place: Placement, s: Sys, e: Entry)
    requires Inv(place, s) && Enabled(s, Commit(e))
    ensures var s' := Take(place, s, Commit(e));
            && (forall x | x in s'.saved :: x in s'.committed && Leq(EntryEffect(place, x), Parsed(s'.fsm.store)))
            && Leq(s'.base, Replay(place, map[], s'.committed))
  {
    ReplayGrows(place, s.base, s.committed, e);
  }

  lemma CommitKeepsInv(place: Placement, s: Sys, e: Entry)
    requires Inv(place, s) && Enabled(s, Commit(e))
    ensures Inv(place, Take(place, s, Commit(e)))
  {
    CommitKeepsLog(place, s, e);
    CommitKeepsSaved(place, s, e);
  }

  lemma ApplyKeepsInv(place: Placement, s: Sys, saveOk: bool)
    requires Inv(place, s) && Enabled(s, ApplyNext(saveOk))
    ensures Inv(place, Take(place, s, ApplyNext(saveOk)))
  {
    var s', e := Take(place, s, ApplyNext(saveOk)), s.log[s.next];
    var done := s.log[..s.next + 1];
    assert done[..|done| - 1] == s.log[..s.next];
    ReplayLast(place, s.base, done);
    ProcessEngine(place, s.fsm, e, saveOk);
    ProcessKeepsStore(place, s.fsm, e, saveOk);
    if Accepted(place, e) && saveOk {
      SavedIsCovered(place, s.fsm, e);
    }
    forall x | x in s'.saved ensures x in s'.committed && Leq(EntryEffect(place, x), Parsed(s'.fsm.store)) {
      if x in s.saved {
        LeqTransitive(EntryEffect(place, x), Parsed(s.fsm.store), Parsed(s'.fsm.store));
      }
    }
  }

  lemma RestartKeepsInv(place: Placement, s: Sys)
    requires Inv(place, s)
    ensures Enabled(s, CrashAndRestart)
    ensures Inv(place, Take(place, s, CrashAndRestart))
  {
    EngineBelowCommitted(place, s);
  }

  /** Every step keeps the invariant and never shrinks the store. */
  lemma StepKeepsInv(place: Placement, s: Sys, step: Step)
    requires Inv(place, s) && Enabled(s, step)
    ensures Inv(place, Take(place, s, step))
    ensures Leq(Parsed(s.fsm.store), Parsed(Take(place, s, step).fsm.store))
    ensures s.committed <= Take(place, s, step).committed && s.saved <= Take(place, s, step).saved
  {
    match step
    case Commit(e) => CommitKeepsInv(place, s, e);
    case ApplyNext(saveOk) =>
      ApplyKeepsInv(place, s, saveOk);
      ProcessKeepsStore(place, s.fsm, s.log[s.next], saveOk);
    case MaybeSnapshot(_) =>
    case CrashAndRestart => RestartKeepsInv(place, s);
  }

  // ---- whole runs --------------------------------------------------------

  /** The states of a run of the machine from an empty node. */
  ghost predicate IsRun(place: Placement, run: seq<Sys>, steps: seq<Step>)
  {
    && |run| == |steps| + 1 && run[0] == Start()
    && forall i | 0 <= i < |steps| :: Enabled(run[i], steps[i]) && run[i + 1] == Take(place, run[i], steps[i])
  }

  lemma RunStep(place: Placement, run: seq<Sys>, steps: seq<Step>, k: nat)
    requires IsRun(place, run, steps) && k < |steps|
    ensures Enabled(run[k], steps[k]) && run[k + 1] == Take(place, run[k], steps[k])
  {
  }

  lemma {:induction false} RunKeepsInv(place: Placement, run: seq<Sys>, steps: seq<Step>, i: nat)
    requires IsRun(place, run, steps) && i < |run|
    ensures Inv(place, run[i])
    decreases i
  {
    if i > 0 {
      RunKeepsInv(place, run, steps, i - 1);
      RunStep(place, run, steps, i - 1);
      StepKeepsInv(place, run[i - 1], steps[i - 1]);
    }
  }

  lemma StepNeverShrinks(place: Placement, run: seq<Sys>, steps: seq<Step>, k: nat)
    requires IsRun(place, run, steps) && k < |steps|
    ensures AllParse(run[k].fsm.store) && AllParse(run[k + 1].fsm.store)
    ensures Leq(Parsed(run[k].fsm.store), Parsed(run[k + 1].fsm.store)) && run[k].saved <= run[k + 1].saved
  {
    RunKeepsInv(place, run, steps, k);
    RunStep(place, run, steps, k);
    StepKeepsInv(place, run[k], steps[k]);
  }

  lemma {:induction false} SavedOnlyGrows(place: Placement, run: seq<Sys>, steps: seq<Step>, i: nat, j: nat)
    requires IsRun(place, run, steps) && i <= j < |run|
    ensures run[i].saved <= run[j].saved
    decreases j
  {
    if i < j {
      SavedOnlyGrows(place, run, steps, i, j - 1);
      StepNeverShrinks(place, run, steps, j - 1);
    }
  }

  /** No stored register ever decreases, whatever happens between moments i and j. */
  lemma RunNeverShrinks(place: Placement, run: seq<Sys>, steps: seq<Step>, i: nat, j: nat)
    requires IsRun(place, run, steps) && i <= j < |run|
    ensures AllParse(run[i].fsm.store) && AllParse(run[j].fsm.store)
    ensures Leq(Parsed(run[i].fsm.store), Parsed(run[j].fsm.store))
    ensures run[i].saved <= run[j].saved
  {
    forall k | 0 <= k < |run| ensures AllParse(run[k].fsm.store) {
      RunKeepsInv(place, run, steps, k);
    }
    var stored := seq(|run|, k requires 0 <= k < |run| && AllParse(run[k].fsm.store) => Parsed(run[k].fsm.store));
    forall k: nat | i <= k < j ensures Rises(stored, k) {
      StepNeverShrinks(place, run, steps, k);
    }
    ChainRises(stored, i, j);
    SavedOnlyGrows(place, run, steps, i, j);
  }

  /**
    Durability over every run: whatever was persisted by moment i is still
    there at any later moment j, a restart at j succeeds and brings back an
    engine that holds it, and that engine holds nothing that was never committed.
   */
  lemma PersistedEntriesSurvive(place: Placement, run: seq<Sys>, steps: seq<Step>, i: nat, j: nat)
    requires IsRun(place, run, steps) && i <= j < |run|
    ensures Enabled(run[j], CrashAndRestart)
    ensures var restarted := Take(place, run[j], CrashAndRestart).fsm.engine;
            && (AllParse(run[i].fsm.store) && Leq(Parsed(run[i].fsm.store), restarted))
            && (forall e | e in run[i].saved :: Leq(EntryEffect(place, e), restarted))
            && Leq(restarted, Replay(place, map[], run[j].committed))
  {
    RunKeepsInv(place, run, steps, i);
    RunKeepsInv(place, run, steps, j);
    RunNeverShrinks(place, run, steps, i, j);
    EngineBelowCommitted(place, run[j]);
  }

  /** Step k of the run is a turn of the apply loop that saves g. */
  predicate SavesAt(place: Placement, run: seq<Sys>, steps: seq<Step>, k: nat, g: string)
    requires k < |run| && k < |steps|
  {
    && steps[k].ApplyNext? && run[k].next < |run[k].log|
    && Saves(place, run[k].log[run[k].next], steps[k].saveOk, g)
  }

  predicate Unsaved(place: Placement, run: seq<Sys>, steps: seq<Step>, i: nat, j: nat, g: string)
    requires |run| == |steps| + 1 && i <= j < |run|
  {
    forall k | i <= k < j :: !SavesAt(place, run, steps, k, g)
  }

  lemma StepStore(place: Placement, run: seq<Sys>, steps: seq<Step>, k: nat, g: string)
    requires IsRun(place, run, steps) && k < |steps|
    ensures Consistent(run[k].fsm) && Consistent(run[k + 1].fsm)
    ensures Lookup(Parsed(run[k + 1].fsm.store), g)
         == if SavesAt(place, run, steps, k, g) then Lookup(run[k + 1].fsm.engine, g) else Lookup(Parsed(run[k].fsm.store), g)
  {
    RunKeepsInv(place, run, steps, k);
    RunKeepsInv(place, run, steps, k + 1);
    RunStep(place, run, steps, k);
    if steps[k].ApplyNext? {
      TurnStore(place, run[k].fsm, run[k].log[run[k].next], steps[k].saveOk, g);
    }
  }

  lemma {:induction false} UnsavedStays(place: Placement, run: seq<Sys>, steps: seq<Step>, i: nat, j: nat, g: string)
    requires IsRun(place, run, steps) && i <= j < |run| && Unsaved(place, run, steps, i, j, g)
    ensures AllParse(run[i].fsm.store) && AllParse(run[j].fsm.store)
    ensures Lookup(Parsed(run[j].fsm.store), g) == Lookup(Parsed(run[i].fsm.store), g)
    decreases j
  {
    RunKeepsInv(place, run, steps, j);
    if i < j {
      UnsavedStays(place, run, steps, i, j - 1, g);
      StepStore(place, run, steps, j - 1, g);
    }
  }

  lemma NothingStored(place: Placement, run: seq<Sys>, steps: seq<Step>, g: string)
    requires IsRun(place, run, steps)
    ensures AllParse(run[0].fsm.store) && Lookup(Parsed(run[0].fsm.store), g) == None
  {
    assert run[0].fsm.store == map[];
  }

  lemma StoredAsLive(place: Placement, run: seq<Sys>, steps: seq<Step>, k: nat, g: string)
    requires IsRun(place, run, steps) && k < |steps| && SavesAt(place, run, steps, k, g)
    ensures AllParse(run[k + 1].fsm.store) && Lookup(Parsed(run[k + 1].fsm.store), g) == Lookup(run[k + 1].fsm.engine, g)
  {
    var s := run[k];
    RunKeepsInv(place, run, steps, k);
    RunStep(place, run, steps, k);
    TurnIsProcess(place, s, steps[k].saveOk, s.log[s.next]);
    TurnStore(place, s.fsm, s.log[s.next], steps[k].saveOk, g);
  }

  /** What is stored right after the last save of the group, or at the start. */
  ghost function LastStored(run: seq<Sys>, n: nat, g: string): Option<Regs>
    requires n < |run|
  {
    if n == 0 then None else Lookup(run[n].fsm.engine, g)
  }

  /**
    In every run, snapshots and crashes included, a restart finds each group as
    it was live right after its last save: that save ended at moment n, or n is
    0 and there was none.
   */
  lemma RunStoreIsLastSave(place: Placement, run: seq<Sys>, steps: seq<Step>, n: nat, j: nat, g: string)
    requires IsRun(place, run, steps) && n <= j < |run| && Unsaved(place, run, steps, n, j, g)
    requires n > 0 ==> SavesAt(place, run, steps, n - 1, g)
    ensures AllParse(run[j].fsm.store)
    ensures Lookup(Parsed(run[j].fsm.store), g) == LastStored(run, n, g)
  {
    UnsavedStays(place, run, steps, n, j, g);
    if n > 0 {
      StoredAsLive(place, run, steps, n - 1, g);
    } else {
      NothingStored(place, run, steps, g);
    }
  }

  /** The same stretch of one incarnation. */
  predicate NoCrash(steps: seq<Step>, i: nat, j: nat)
    requires i <= j <= |steps|
  {
    forall k | i <= k < j :: !steps[k].CrashAndRestart?
  }

  lemma StepGrowsEngine(place: Placement, run: seq<Sys>, steps: seq<Step>, k: nat)
    requires IsRun(place, run, steps) && k < |steps| && !steps[k].CrashAndRestart?
    ensures Leq(run[k].fsm.engine, run[k + 1].fsm.engine)
  {
    var s := run[k];
    RunStep(place, run, steps, k);
    if steps[k].ApplyNext? {
      ProcessEngine(place, s.fsm, s.log[s.next], steps[k].saveOk);
      JoinUpper(s.fsm.engine, EntryEffect(place, s.log[s.next]));
    } else {
      LeqReflexive(s.fsm.engine);
    }
  }

  lemma LiveEngineGrows(place: Placement, run: seq<Sys>, steps: seq<Step>, i: nat, j: nat)
    requires IsRun(place, run, steps) && i <= j < |run| && NoCrash(steps, i, j)
    ensures Leq(run[i].fsm.engine, run[j].fsm.engine)
  {
    var live := seq(|run|, k requires 0 <= k < |run| => run[k].fsm.engine);
    forall k: nat | i <= k < j ensures Rises(live, k) {
      StepGrowsEngine(place, run, steps, k);
    }
    ChainRises(live, i, j);
  }

  /** An entry's effect lies in one group, so only that group decides whether a state covers it. */
  lemma CoveredByGroup(place: Placement, e: Entry, st: Groups, st': Groups)
    requires IsCommand(e) && Lookup(st, e.data.cmd.group) == Lookup(st', e.data.cmd.group)
    ensures Leq(EntryEffect(place, e), st) <==> Leq(EntryEffect(place, e), st')
  {
    EffectIsLocal(place, e.data.cmd);
  }

  /** A turn applied the command: the engine covers it until the next crash. */
  lemma AppliedIsLive(place: Placement, run: seq<Sys>, steps: seq<Step>, t: nat, n: nat)
    requires IsRun(place, run, steps) && t < n < |run| && steps[t].ApplyNext? && NoCrash(steps, t, n)
    ensures run[t].next < |run[t].log|
    ensures Leq(EntryEffect(place, run[t].log[run[t].next]), run[n].fsm.engine)
  {
    RunStep(place, run, steps, t);
    var e := run[t].log[run[t].next];
    ProcessEngine(place, run[t].fsm, e, steps[t].saveOk);
    JoinUpper(run[t].fsm.engine, EntryEffect(place, e));
    LiveEngineGrows(place, run, steps, t + 1, n);
    LeqTransitive(EntryEffect(place, e), run[t + 1].fsm.engine, run[n].fsm.engine);
  }

  lemma SavedLaterSurvives(place: Placement, run: seq<Sys>, steps: seq<Step>, t: nat, k: nat, j: nat, e: Entry)
    requires IsRun(place, run, steps) && t <= k < j < |run| && steps[t].ApplyNext? && NoCrash(steps, t, j)
    requires run[t].next < |run[t].log| && e == run[t].log[run[t].next] && IsCommand(e)
    requires SavesAt(place, run, steps, k, e.data.cmd.group)
    ensures AllParse(run[j].fsm.store) && Leq(EntryEffect(place, e), Parsed(run[j].fsm.store))
  {
    AppliedIsLive(place, run, steps, t, k + 1);
    StepStore(place, run, steps, k, e.data.cmd.group);
    CoveredByGroup(place, e, Parsed(run[k + 1].fsm.store), run[k + 1].fsm.engine);
    RunNeverShrinks(place, run, steps, k + 1, j);
    LeqTransitive(EntryEffect(place, e), Parsed(run[k + 1].fsm.store), Parsed(run[j].fsm.store));
  }

  /**
    When a command survives: it was applied at turn t, accepted or not, and the
    node crashes at moment j of the same incarnation. The restarted engine
    covers it exactly if the store did before the turn or some turn from t on,
    its own or a later one, saved its group.
   */
  lemma SurvivesRestartIff(place: Placement, run: seq<Sys>, steps: seq<Step>, t: nat, j: nat, e: Entry)
    requires IsRun(place, run, steps) && t < j < |run| && steps[t].ApplyNext? && NoCrash(steps, t, j)
    requires run[t].next < |run[t].log| && e == run[t].log[run[t].next] && IsCommand(e)
    ensures AllParse(run[t].fsm.store) && Enabled(run[j], CrashAndRestart)
    ensures Leq(EntryEffect(place, e), Take(place, run[j], CrashAndRestart).fsm.engine)
       <==> || Leq(EntryEffect(place, e), Parsed(run[t].fsm.store))
            || exists k | t <= k < j :: SavesAt(place, run, steps, k, e.data.cmd.group)
  {
    var g := e.data.cmd.group;
    RunNeverShrinks(place, run, steps, t, j);
    if Unsaved(place, run, steps, t, j, g) {
      UnsavedStays(place, run, steps, t, j, g);
      CoveredByGroup(place, e, Parsed(run[j].fsm.store), Parsed(run[t].fsm.store));
    } else {
      var k :| t <= k < j && SavesAt(place, run, steps, k, g);
      SavedLaterSurvives(place, run, steps, t, k, j, e);
    }
  }

  /** Committing everything again after a restart, in any order and on top of whatever survived, rebuilds the full state. */
  lemma ReplayAfterRestart(place: Placement, run: seq<Sys>, steps: seq<Step>, j: nat, again: seq<Entry>)
    requires IsRun(place, run, steps) && j < |run|
    requires CommandsIn(again) == CommandsIn(run[j].committed)
    ensures AllParse(run[j].fsm.store)
    ensures Replay(place, Parsed(run[j].fsm.store), again) == Replay(place, map[], run[j].committed)
  {
    RunKeepsInv(place, run, steps, j);
    EngineBelowCommitted(place, run[j]);
    var back, all := Parsed(run[j].fsm.store), run[j].committed;
    ReplayOrderIrrelevant(place, map[], again, all);
    ReplayUpper(place, map[], again);
    ReplayUpper(place, back, again);
    ReplayEqual(place, back, again, map[], again);
  }

  /** Single turns of the apply loop, one per element of `saves`. */
  function ApplyEach(place: Placement, s: Sys, saves: seq<bool>): (s': Sys)
    requires s.next + |saves| <= |s.log|
    ensures s'.log == s.log && s'.next == s.next + |saves|
    decreases |saves|
  {
    if saves == [] then s
    else Take(place, ApplyEach(place, s, saves[..|saves| - 1]), ApplyNext(saves[|saves| - 1]))
  }

  lemma TurnIsProcess(place: Placement, s: Sys, saveOk: bool, e: Entry)
    requires s.next < |s.log| && e == s.log[s.next]
    ensures Take(place, s, ApplyNext(saveOk)).fsm == Process(place, s.fsm, e, saveOk)
  {
  }

  /** One call of applyEntries on the next entries of the log does what those single turns of the machine do. */
  lemma {:induction false} ApplyEntriesIsTurns(place: Placement, s: Sys, saves: seq<bool>)
    requires s.next + |saves| <= |s.log|
    ensures ApplyEach(place, s, saves).fsm == ProcessAll(place, s.fsm, s.log[s.next..s.next + |saves|], saves)
    decreases |saves|
  {
    if saves != [] {
      var n, batch := |saves| - 1, s.log[s.next..s.next + |saves|];
      var before := ApplyEach(place, s, saves[..n]);
      ApplyEntriesIsTurns(place, s, saves[..n]);
      assert batch[..n] == s.log[s.next..s.next + n];
      TurnIsProcess(place, before, saves[n], batch[n]);
      assert ApplyEach(place, s, saves).fsm == ProcessAll(place, s.fsm, batch, saves);
    }
  }

  // ---- runs, told by the steps alone -------------------------------------

  /** Every entry committed in any incarnation, in order. */
  function CommittedIn(steps: seq<Step>): seq<Entry>
  {
    if steps == [] then []
    else
      var before, last := CommittedIn(steps[..|steps| - 1]), steps[|steps| - 1];
      if last.Commit? then before + [last.e] else before
  }

  /** The commits since the last crash. */
  function Incarnation(steps: seq<Step>): seq<Entry>
  {
    if steps == [] || steps[|steps| - 1].CrashAndRestart? then []
    else
      var before, last := Incarnation(steps[..|steps| - 1]), steps[|steps| - 1];
      if last.Commit? then before + [last.e] else before
  }

  /** The turns of the apply loop since the last crash. */
  function TurnsIn(steps: seq<Step>): nat
  {
    if steps == [] || steps[|steps| - 1].CrashAndRestart? then 0
    else TurnsIn(steps[..|steps| - 1]) + if steps[|steps| - 1].ApplyNext? then 1 else 0
  }

  /** The moment of the last restart, 0 if there was none. */
  function LastRestart(steps: seq<Step>): (n: nat)
    ensures n <= |steps| && (n > 0 ==> steps[n - 1].CrashAndRestart?)
  {
    if steps == [] || steps[|steps| - 1].CrashAndRestart? then |steps| else LastRestart(steps[..|steps| - 1])
  }

  lemma StepRecords(place: Placement, s: Sys, step: Step, s': Sys)
    requires Enabled(s, step) && s' == Take(place, s, step)
    ensures s'.committed == s.committed + if step.Commit? then [step.e] else []
    ensures s'.log == if step.CrashAndRestart? then [] else s.log + if step.Commit? then [step.e] else []
    ensures s'.next == if step.CrashAndRestart? then 0 else s.next + if step.ApplyNext? then 1 else 0
  {
  }

  /** The log, the committed entries and the number of turns are those of the steps taken: nothing is dropped or invented. */
  lemma {:induction false} RunIsHistory(place: Placement, run: seq<Sys>, steps: seq<Step>, j: nat)
    requires IsRun(place, run, steps) && j < |run|
    ensures run[j].committed == CommittedIn(steps[..j])
    ensures run[j].log == Incarnation(steps[..j]) && run[j].next == TurnsIn(steps[..j])
    decreases j
  {
    if j > 0 {
      RunIsHistory(place, run, steps, j - 1);
      RunStep(place, run, steps, j - 1);
      StepRecords(place, run[j - 1], steps[j - 1], run[j]);
      assert steps[..j][..j - 1] == steps[..j - 1];
    }
  }

  lemma StepBase(place: Placement, s: Sys, step: Step, s': Sys)
    requires Enabled(s, step) && s' == Take(place, s, step)
    ensures if step.CrashAndRestart? then s'.base == s'.fsm.engine == Parsed(s.fsm.store) else s'.base == s.base
  {
  }

  /** An incarnation starts from what the store held at the crash. */
  lemma {:induction false} BaseIsRestart(place: Placement, run: seq<Sys>, steps: seq<Step>, j: nat)
    requires IsRun(place, run, steps) && j < |run|
    ensures var n := LastRestart(steps[..j]);
            if n == 0 then run[j].base == map[]
            else AllParse(run[n - 1].fsm.store) && run[j].base == Parsed(run[n - 1].fsm.store)
    decreases j
  {
    if j > 0 {
      BaseIsRestart(place, run, steps, j - 1);
      RunStep(place, run, steps, j - 1);
      StepBase(place, run[j - 1], steps[j - 1], run[j]);
      assert steps[..j][..j - 1] == steps[..j - 1];
    }
  }

  /** The live engine of any moment, by the steps alone: what the last restart found, and the commands applied since. */
  lemma EngineIsHistory(place: Placement, run: seq<Sys>, steps: seq<Step>, j: nat)
    requires IsRun(place, run, steps) && j < |run|
    ensures var n, log, turns := LastRestart(steps[..j]), Incarnation(steps[..j]), TurnsIn(steps[..j]);
            && turns <= |log|
            && (n > 0 ==> AllParse(run[n - 1].fsm.store))
            && run[j].fsm.engine == Replay(place, if n == 0 then map[] else Parsed(run[n - 1].fsm.store), log[..turns])
  {
    RunKeepsInv(place, run, steps, j);
    RunIsHistory(place, run, steps, j);
    BaseIsRestart(place, run, steps, j);
  }

  /** At any moment a further entry can be committed, a waiting one applied, a snapshot tried, and the node crash. */
  lemma StepsPossible(place: Placement, run: seq<Sys>, steps: seq<Step>, j: nat, e: Entry, ok: bool)
    requires IsRun(place, run, steps) && j < |run|
    ensures var log := Incarnation(steps[..j]);
            && ((if log == [] then 0 else log[|log| - 1].index) < e.index ==> Enabled(run[j], Commit(e)))
            && (TurnsIn(steps[..j]) < |log| ==> Enabled(run[j], ApplyNext(ok)))
            && Enabled(run[j], MaybeSnapshot(ok)) && Enabled(run[j], CrashAndRestart)
  {
    RunIsHistory(place, run, steps, j);
    RunKeepsInv(place, run, steps, j);
  }

  /** Step k is a turn on e whose dispatch and save succeed. */
  predicate SavesEntryAt(place: Placement, run: seq<Sys>, steps: seq<Step>, k: nat, e: Entry)
    requires k < |run| && k < |steps|
  {
    steps[k].ApplyNext? && run[k].next < |run[k].log| && run[k].log[run[k].next] == e && Accepted(place, e) && steps[k].saveOk
  }

  lemma {:induction false} SavedExactly(place: Placement, run: seq<Sys>, steps: seq<Step>, j: nat, e: Entry)
    requires IsRun(place, run, steps) && j < |run|
    ensures e in run[j].saved <==> exists k: nat | k < j :: SavesEntryAt(place, run, steps, k, e)
    decreases j
  {
    if j > 0 {
      SavedExactly(place, run, steps, j - 1, e);
      RunStep(place, run, steps, j - 1);
      SavedStep(place, run, steps, j - 1, e);
    }
  }

  lemma SavedStep(place: Placement, run: seq<Sys>, steps: seq<Step>, k: nat, e: Entry)
    requires k + 1 < |run| && k < |steps| && Enabled(run[k], steps[k]) && run[k + 1] == Take(place, run[k], steps[k])
    ensures e in run[k + 1].saved <==> e in run[k].saved || SavesEntryAt(place, run, steps, k, e)
  {
  }

  /**
    A snapshot is cut exactly when storage takes it and at least ten thousand
    entries were accepted since the last one; it is the engine of that moment
    under the index of the last accepted entry.
   */
  lemma SnapshotExact(place: Placement, run: seq<Sys>, steps: seq<Step>, k: nat)
    requires IsRun(place, run, steps) && k < |steps| && steps[k].MaybeSnapshot?
    ensures run[k].snapAt <= run[k].next <= |run[k].log|
    ensures var s, s' := run[k], run[k + 1];
            var done := s.log[..s.next];
            if steps[k].storageOk && CountAccepted(place, done) - CountAccepted(place, s.log[..s.snapAt]) >= 10_000
            then && s'.snap == Some(Snapshot(Marshal(Replay(place, s.base, done)), LastAccepted(place, done)))
                 && s'.snapAt == s.next
            else s' == s
  {
    RunKeepsInv(place, run, steps, k);
    RunStep(place, run, steps, k);
  }

  /** Two nodes that started from equal engines and handed the same set of commands to their apply loops hold the same engine. */
  lemma ReplicasConverge(place: Placement, run: seq<Sys>, steps: seq<Step>, i: nat, run': seq<Sys>, steps': seq<Step>, j: nat)
    requires IsRun(place, run, steps) && i < |run| && IsRun(place, run', steps') && j < |run'|
    requires run[i].base == run'[j].base && run[i].next <= |run[i].log| && run'[j].next <= |run'[j].log|
    requires CommandsIn(run[i].log[..run[i].next]) == CommandsIn(run'[j].log[..run'[j].next])
    ensures run[i].fsm.engine == run'[j].fsm.engine
  {
    RunKeepsInv(place, run, steps, i);
    RunKeepsInv(place, run', steps', j);
    ReplayOrderIrrelevant(place, run[i].base, run[i].log[..run[i].next], run'[j].log[..run'[j].next]);
  }

  // ---- snapshots ---------------------------------------------------------

  lemma {:induction false} LastAcceptedWithin(place: Placement, log: seq<Entry>, n: nat)
    requires Increasing(log) && n < |log|
    ensures LastAccepted(place, log[..n]) < log[n].index
    decreases n
  {
    if n > 0 {
      assert log[..n][..n - 1] == log[..n - 1];
      LastAcceptedWithin(place, log, n - 1);
    }
  }

  /**
    A snapshot labelled idx plus the committed entries from any position that
    leaves out no index above idx gives the same engine as the whole log, even
    though idx may lag behind entries whose prefix the snapshot already holds.
   */
  lemma SnapshotPlusSuffix(place: Placement, s: Sys, start: nat)
    requires Inv(place, s) && s.snap.Some? && start <= |s.log|
    requires forall k | 0 <= k < |s.log| && s.log[k].index > s.snap.value.index :: start <= k
    ensures AllParse(s.snap.value.data)
    ensures Replay(place, Parsed(s.snap.value.data), s.log[start..]) == Replay(place, s.base, s.log)
  {
    var at := s.snapAt;
    var before := s.log[..at];
    var data := Replay(place, s.base, before);
    UnmarshalUndoesMarshal(data);
    if at < |s.log| {
      LastAcceptedWithin(place, s.log, at);
    }
    assert start <= at;
    var suffix, whole := s.log[start..], Replay(place, s.base, s.log);
    ReplayUpper(place, s.base, s.log);
    ReplayLeast(place, s.base, before, whole);
    ReplayUpper(place, s.base, before);
    ReplayUpper(place, data, suffix);
    LeqTransitive(s.base, data, Replay(place, data, suffix));
    forall e | e in s.log ensures Leq(EntryEffect(place, e), Replay(place, data, suffix)) {
      var k :| 0 <= k < |s.log| && s.log[k] == e;
      if k < at {
        assert before[k] == e;
        LeqTransitive(EntryEffect(place, e), data, Replay(place, data, suffix));
      } else {
        assert suffix[k - start] == e;
      }
    }
    ReplayEqual(place, data, suffix, s.base, s.log);
  }

  // ---- where the code falls short of its comments ------------------------

  /**
    "Every applied entry was persisted" does not hold of a BATCH_ADD that
    announces two ids and carries one: the id is counted by the live engine and
    its turn attempts no save. A crash loses it unless a later turn of the same
    incarnation saves its group; SurvivesRestartIff is the exact condition.
   */
  lemma TruncatedBatchIsLiveButNotDurable(place: Placement, index: nat)
    ensures var e := Entry(index, true, Holds(Command(TYPE_BATCH_ADD, "g", [2, 5])));
            var f := Process(place, Start().fsm, e, true);
            f.engine == map["g" := Mark(place, 5)] && f.store == map[] && f.appliedIdx == 0
  {
    var c := Command(TYPE_BATCH_ADD, "g", [2, 5]);
    assert c.payload[1..] == [5] && [5][1..] == [];
    assert DecodeIds([5], 2) == Decoded([5], false);
    var ids: seq<uint64> := [5];
    assert ids[..0] == [];
    assert AddIds(place, map[], "g", ids) == AddId(place, map[], "g", 5);
    AddIdIsJoin(place, map[], "g", 5);
  }

  /** A BATCH_ADD of no ids to a group nobody has seen is counted as applied although nothing could be persisted. */
  lemma EmptyBatchIsCounted(place: Placement, f: Fsm, index: nat, g: string, saveOk: bool)
    requires g !in f.engine
    ensures var e := Entry(index, true, Holds(Command(TYPE_BATCH_ADD, g, [0])));
            Process(place, f, e, saveOk) == f.(appliedIdx := index, snapCount := f.snapCount + 1)
  {
  }
}
