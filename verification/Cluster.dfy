/**
  A cluster of servers sharing one hash ring. Requests enter at any node, are
  forwarded to the owner of their group or served there, and interleave freely;
  a write reaches the owner's engine at once (standalone) or through a proposal
  applied later (Raft), and may be refused; saves fail and servers crash and come
  back with what they stored. The cluster is compared with one engine that is
  fed the same ids as they are applied.
 */
module Cluster {
  import opened Base
  import opened Bits
  import opened Commands
  import opened HashRing
  import opened Hll
  import opened Lattice
  import Replica
  import opened WireFormat

  // ---- routing -----------------------------------------------------------

  datatype Route = Local | Forward(owner: string)

  /** A server without a ring or without an address of its own serves everything itself. */
  function RouteOf(hash: Hasher, ring: Option<Ring>, self: string, group: string): Route
  {
    if ring.None? || self == "" then Local
    else
      var owner := Resolve(hash, ring.value, group);
      if owner != "" && owner != self then Forward(owner) else Local
  }

  /** A request leaves a server exactly for a different, non-empty owner, and only if the server knows its own address. */
  lemma ForwardIff(hash: Hasher, ring: Option<Ring>, self: string, group: string, owner: string)
    ensures RouteOf(hash, ring, self, group) == Forward(owner)
       <==> ring.Some? && self != "" && owner != "" && owner != self && owner == Resolve(hash, ring.value, group)
  {
  }

  /** The servers, by address, and the ring each of them holds. */
  datatype Config = Config(hash: Hasher, ring: Ring, nodes: set<string>)

  function Owner(c: Config, group: string): string
  {
    Resolve(c.hash, c.ring, group)
  }

  function RouteAt(c: Config, at: string, group: string): Route
  {
    RouteOf(c.hash, Some(c.ring), at, group)
  }

  // ---- the cluster as a state machine ------------------------------------

  /** Add is a write of one id, BatchAdd of several. */
  datatype Request = Write(ids: seq<uint64>) | Query

  /** A request waiting at a server; `hops` counts how often it was forwarded. */
  datatype Msg = Msg(at: string, group: string, req: Request, hops: nat)

  /** A proposal accepted by a server's Raft node and not applied yet. */
  datatype Proposal = Proposal(at: string, group: string, id: uint64)

  /**
    What a query saw, next to what the single engine held, which ids had been
    acknowledged, and whether no crash had lost any of the group.
   */
  datatype Answer = Answer(group: string, got: Option<Regs>, want: Option<Regs>, acked: set<uint64>, intact: bool)

  /** Live engines and stored sketches of the servers, requests and proposals under way; the rest records history. */
  datatype Sys = Sys(engines: map<string, Groups>, stores: map<string, Groups>,
                     inflight: multiset<Msg>, proposals: multiset<Proposal>,
                     single: Groups, acked: set<(string, uint64)>, lost: set<string>, answers: seq<Answer>)

  /** How a server disposes of one id it owns. A failed save reports an error after the id was added. */
  datatype Disposal = Inserted(saveOk: bool) | Proposed | Refused

  datatype Step =
    | Arrive(entry: string, group: string, req: Request)
    | Pass(m: Msg)
    | Serve(m: Msg, how: Disposal)
    | ApplyProposal(p: Proposal, saveOk: bool)
    | CrashAndRestart(node: string)

  function Start(c: Config): Sys
  {
    var nothing: map<string, Groups> := map n | n in c.nodes :: map[];
    Sys(nothing, nothing, multiset{}, multiset{}, map[], {}, {}, [])
  }

  predicate Enabled(c: Config, s: Sys, step: Step)
  {
    match step
    case Arrive(entry, group, req) => entry in c.nodes && group != ""
    case Pass(m) => m in s.inflight && RouteAt(c, m.at, m.group).Forward? && RouteAt(c, m.at, m.group).owner in c.nodes
    case Serve(m, how) => m in s.inflight && RouteAt(c, m.at, m.group).Local? && m.at in s.engines && m.at in s.stores
    case ApplyProposal(p, _) => p in s.proposals && p.at in s.engines && p.at in s.stores
    case CrashAndRestart(n) => n in s.engines && n in s.stores
  }

  /** The owner's engine gets the id; if the save goes through, its store gets the group's live sketch. */
  function Insert(place: Placement, s: Sys, at: string, g: string, id: uint64, saveOk: bool): Sys
    requires at in s.engines && at in s.stores
  {
    var engine := AddId(place, s.engines[at], g, id);
    s.(engines := s.engines[at := engine],
       stores := if saveOk then s.stores[at := s.stores[at][g := engine[g]]] else s.stores,
       single := AddId(place, s.single, g, id))
  }

  /** What Insert does at one server is one turn of that server's apply loop on the proposed ADD. */
  lemma InsertIsProcess(place: Placement, s: Sys, at: string, g: string, id: uint64, saveOk: bool, f: Replica.Fsm, index: nat)
    requires at in s.engines && at in s.stores
    requires f.engine == s.engines[at] && AllParse(f.store) && Parsed(f.store) == s.stores[at]
    ensures var f' := Replica.Process(place, f, Replica.Entry(index, true, Replica.Holds(AddCommand(g, id))), saveOk);
            var s' := Insert(place, s, at, g, id, saveOk);
            && s'.engines == s.engines[at := f'.engine]
            && AllParse(f'.store) && s'.stores == s.stores[at := Parsed(f'.store)]
  {
    AddCommandAdds(place, f.engine, g, id);
    var engine := AddId(place, f.engine, g, id);
    if saveOk {
      SaveGroup(f.store, g, engine[g]);
    }
  }

  lemma InsertLookup(place: Placement, s: Sys, at: string, g: string, id: uint64, saveOk: bool, h: string)
    requires at in s.engines && at in s.stores
    ensures Lookup(Insert(place, s, at, g, id, saveOk).single, h)
         == if h == g then Some(AddReg(place, RegsOf(s.single, g), id)) else Lookup(s.single, h)
  {
  }

  /** The first id of a write is disposed of; the rest of the batch waits, unless an error ends it. */
  function ServeId(place: Placement, s: Sys, m: Msg, how: Disposal): Sys
    requires m.at in s.engines && m.at in s.stores && m.req.Write? && m.req.ids != []
  {
    var id, rest := m.req.ids[0], m.(req := Write(m.req.ids[1..]));
    var gone := s.inflight - multiset{m};
    match how
    case Inserted(saveOk) =>
      Insert(place, s, m.at, m.group, id, saveOk)
        .(inflight := if saveOk then gone + multiset{rest} else gone,
          acked := if saveOk then s.acked + {(m.group, id)} else s.acked)
    case Proposed => s.(inflight := gone + multiset{rest}, proposals := s.proposals + multiset{Proposal(m.at, m.group, id)})
    case Refused => s.(inflight := gone)
  }

  function AckedIn(s: Sys, g: string): set<uint64>
  {
    set p | p in s.acked && p.0 == g :: p.1
  }

  /** The groups a crash of the server loses something of: live and stored registers differ. */
  function Unsaved(s: Sys, n: string): set<string>
    requires n in s.engines && n in s.stores
  {
    set g | g in s.engines[n] && Lookup(s.engines[n], g) != Lookup(s.stores[n], g)
  }

  function Take(place: Placement, c: Config, s: Sys, step: Step): Sys
  {
    if !Enabled(c, s, step) then s
    else match step
      case Arrive(entry, group, req) => s.(inflight := s.inflight + multiset{Msg(entry, group, req, 0)})
      case Pass(m) =>
        var m' := m.(at := RouteAt(c, m.at, m.group).owner, hops := m.hops + 1);
        s.(inflight := s.inflight - multiset{m} + multiset{m'})
      case Serve(m, how) =>
        if m.req.Query? then
          var a := Answer(m.group, Lookup(s.engines[m.at], m.group), Lookup(s.single, m.group), AckedIn(s, m.group),
                          m.group !in s.lost);
          s.(inflight := s.inflight - multiset{m}, answers := s.answers + [a])
        else if m.req.ids == [] then s.(inflight := s.inflight - multiset{m})
        else ServeId(place, s, m, how)
      case ApplyProposal(p, saveOk) =>
        Insert(place, s, p.at, p.group, p.id, saveOk).(proposals := s.proposals - multiset{p})
      case CrashAndRestart(n) => s.(engines := s.engines[n := s.stores[n]], lost := s.lost + Unsaved(s, n))
  }

  /** Applying a proposal is one turn of the owner's apply loop on the proposed ADD, and consumes the proposal. */
  lemma ApplyProposalIsProcess(place: Placement, c: Config, s: Sys, p: Proposal, saveOk: bool, f: Replica.Fsm, index: nat)
    requires Enabled(c, s, ApplyProposal(p, saveOk))
    requires f.engine == s.engines[p.at] && AllParse(f.store) && Parsed(f.store) == s.stores[p.at]
    ensures var f' := Replica.Process(place, f, Replica.Entry(index, true, Replica.Holds(AddCommand(p.group, p.id))), saveOk);
            var s' := Take(place, c, s, ApplyProposal(p, saveOk));
            && s'.engines == s.engines[p.at := f'.engine]
            && AllParse(f'.store) && s'.stores == s.stores[p.at := Parsed(f'.store)]
            && p.group in f'.engine && LeqRegs(Mark(place, p.id), f'.engine[p.group])
            && s'.proposals == s.proposals - multiset{p} && s'.inflight == s.inflight
  {
    InsertIsProcess(place, s, p.at, p.group, p.id, saveOk, f, index);
    AddCommandAdds(place, f.engine, p.group, p.id);
  }

  function Run(place: Placement, c: Config, steps: seq<Step>): Sys
    decreases |steps|
  {
    if steps == [] then Start(c)
    else Take(place, c, Run(place, c, steps[..|steps| - 1]), steps[|steps| - 1])
  }

  // ---- one group's view of the cluster -----------------------------------

  /** The group has an owner, and it is one of the servers. */
  predicate Owned(c: Config, g: string)
  {
    Owner(c, g) != "" && Owner(c, g) in c.nodes && "" !in c.nodes
  }

  /** Requests for the group are at most one forward away from their entry, and have then reached the owner. */
  ghost predicate RoutesOk(c: Config, s: Sys, g: string)
  {
    && (forall m | m in s.inflight && m.group == g :: m.hops <= 1 && (m.hops == 1 ==> m.at == Owner(c, g)))
    && (forall m | m in s.inflight && m.group == g :: m.at in c.nodes)
    && (forall p | p in s.proposals && p.group == g :: p.at == Owner(c, g))
  }

  predicate Below(a: Option<Regs>, b: Option<Regs>)
  {
    a.Some? ==> b.Some? && LeqRegs(a.value, b.value)
  }

  predicate Covers(place: Placement, r: Option<Regs>, ids: set<uint64>)
  {
    forall id | id in ids :: r.Some? && LeqRegs(Mark(place, id), r.value)
  }

  /** No server but the owner holds the group, live or stored. */
  ghost predicate OnlyAtOwner(c: Config, s: Sys, g: string)
  {
    && s.engines.Keys == c.nodes && s.stores.Keys == c.nodes
    && forall n | n in c.nodes && n != Owner(c, g) :: g !in s.engines[n] && g !in s.stores[n]
  }

  /**
    Acknowledged ids are in the owner's stored sketch, that is below the live
    one, and the live one is below the single engine's; as long as no crash lost
    any of the group, live and single are equal.
   */
  ghost predicate DataOk(place: Placement, c: Config, s: Sys, g: string)
    requires OnlyAtOwner(c, s, g) && Owner(c, g) in c.nodes
  {
    var stored, live, all := Lookup(s.stores[Owner(c, g)], g), Lookup(s.engines[Owner(c, g)], g), Lookup(s.single, g);
    Covers(place, stored, AckedIn(s, g)) && Below(stored, live) && Below(live, all) && (g !in s.lost ==> live == all)
  }

  /**
    A query saw every acknowledged id and nothing that was not written; unless
    a crash lost some of the group, exactly what the single engine holds.
   */
  predicate AnswerOk(place: Placement, a: Answer)
  {
    Covers(place, a.got, a.acked) && Below(a.got, a.want) && (a.intact ==> a.got == a.want)
  }

  ghost predicate AnswersOk(place: Placement, s: Sys, g: string)
  {
    forall a | a in s.answers && a.group == g :: AnswerOk(place, a)
  }

  ghost predicate Inv(place: Placement, c: Config, s: Sys, g: string)
    requires Owned(c, g)
  {
    RoutesOk(c, s, g) && OnlyAtOwner(c, s, g) && DataOk(place, c, s, g) && AnswersOk(place, s, g)
  }

  lemma LocalIsOwner(c: Config, at: string, g: string)
    requires Owned(c, g) && at in c.nodes
    ensures RouteAt(c, at, g) == if at == Owner(c, g) then Local else Forward(Owner(c, g))
  {
  }

  lemma BelowTransitive(a: Option<Regs>, b: Option<Regs>, c: Option<Regs>)
    requires Below(a, b) && Below(b, c)
    ensures Below(a, c)
  {
  }

  lemma CoversBelow(place: Placement, a: Option<Regs>, b: Option<Regs>, ids: set<uint64>)
    requires Covers(place, a, ids) && Below(a, b)
    ensures Covers(place, b, ids)
  {
  }

  lemma AddIdMonotone(place: Placement, a: Groups, b: Groups, g: string, id: uint64)
    requires Below(Lookup(a, g), Lookup(b, g))
    ensures var x, y := Lookup(AddId(place, a, g, id), g), Lookup(AddId(place, b, g, id), g);
            Below(x, y) && Below(Lookup(a, g), x) && LeqRegs(Mark(place, id), x.value)
  {
  }

  /** Inserting at the owner, with or without a successful save, keeps the order of stored, live and single. */
  lemma InsertKeepsData(place: Placement, c: Config, s: Sys, g: string, at: string, h: string, id: uint64, saveOk: bool)
    requires Owned(c, g) && OnlyAtOwner(c, s, g) && DataOk(place, c, s, g) && at in c.nodes && (h == g ==> at == Owner(c, g))
    ensures var s' := Insert(place, s, at, h, id, saveOk);
            && OnlyAtOwner(c, s', g) && DataOk(place, c, s', g)
            && (h == g && saveOk ==> Covers(place, Lookup(s'.stores[at], g), AckedIn(s, g) + {id}))
  {
    if h == g {
      var s' := Insert(place, s, at, h, id, saveOk);
      var stored, live := Lookup(s.stores[at], g), Lookup(s.engines[at], g);
      var live' := Lookup(s'.engines[at], g);
      AddIdMonotone(place, s.engines[at], s.single, g, id);
      BelowTransitive(stored, live, live');
      CoversBelow(place, stored, live', AckedIn(s, g));
    }
  }

  lemma ServeIdKeepsRoutes(place: Placement, c: Config, s: Sys, g: string, m: Msg, how: Disposal)
    requires Owned(c, g) && RoutesOk(c, s, g) && Enabled(c, s, Serve(m, how)) && m.req.Write? && m.req.ids != []
    ensures RoutesOk(c, ServeId(place, s, m, how), g)
  {
    if m.group == g {
      LocalIsOwner(c, m.at, g);
    }
    var s', rest := ServeId(place, s, m, how), m.(req := Write(m.req.ids[1..]));
    forall x | x in s'.inflight ensures x in s.inflight || x == rest {
    }
  }

  lemma ServeIdKeepsData(place: Placement, c: Config, s: Sys, g: string, m: Msg, saveOk: bool)
    requires Owned(c, g) && OnlyAtOwner(c, s, g) && DataOk(place, c, s, g) && m.req.Write? && m.req.ids != []
    requires m.at in c.nodes && (m.group == g ==> m.at == Owner(c, g))
    ensures OnlyAtOwner(c, ServeId(place, s, m, Inserted(saveOk)), g)
    ensures DataOk(place, c, ServeId(place, s, m, Inserted(saveOk)), g)
  {
    var id, s' := m.req.ids[0], ServeId(place, s, m, Inserted(saveOk));
    var acked := AckedIn(s, g) + if m.group == g && saveOk then {id} else {};
    InsertKeepsData(place, c, s, g, m.at, m.group, id, saveOk);
    assert AckedIn(s', g) == acked;
    assert Covers(place, Lookup(s'.stores[Owner(c, g)], g), acked);
  }

  lemma ServeIdKeepsInv(place: Placement, c: Config, s: Sys, g: string, m: Msg, how: Disposal)
    requires Owned(c, g) && Inv(place, c, s, g) && Enabled(c, s, Serve(m, how)) && m.req.Write? && m.req.ids != []
    ensures Inv(place, c, ServeId(place, s, m, how), g)
  {
    ServeIdKeepsRoutes(place, c, s, g, m, how);
    if m.group == g {
      LocalIsOwner(c, m.at, g);
    }
    if how.Inserted? {
      ServeIdKeepsData(place, c, s, g, m, how.saveOk);
    }
  }

  lemma QueryKeepsInv(place: Placement, c: Config, s: Sys, g: string, m: Msg, how: Disposal)
    requires Owned(c, g) && Inv(place, c, s, g) && Enabled(c, s, Serve(m, how)) && m.req.Query?
    ensures Inv(place, c, Take(place, c, s, Serve(m, how)), g)
  {
    if m.group == g {
      LocalIsOwner(c, m.at, g);
      CoversBelow(place, Lookup(s.stores[m.at], g), Lookup(s.engines[m.at], g), AckedIn(s, g));
    }
  }

  lemma ProposalKeepsInv(place: Placement, c: Config, s: Sys, g: string, p: Proposal, saveOk: bool)
    requires Owned(c, g) && Inv(place, c, s, g) && Enabled(c, s, ApplyProposal(p, saveOk))
    ensures Inv(place, c, Take(place, c, s, ApplyProposal(p, saveOk)), g)
  {
    InsertKeepsData(place, c, s, g, p.at, p.group, p.id, saveOk);
  }

  lemma CrashKeepsInv(place: Placement, c: Config, s: Sys, g: string, n: string)
    requires Owned(c, g) && Inv(place, c, s, g) && Enabled(c, s, CrashAndRestart(n))
    ensures Inv(place, c, Take(place, c, s, CrashAndRestart(n)), g)
  {
    var o := Owner(c, g);
    BelowTransitive(Lookup(s.stores[o], g), Lookup(s.engines[o], g), Lookup(s.single, g));
  }

  lemma PassKeepsInv(place: Placement, c: Config, s: Sys, g: string, m: Msg)
    requires Owned(c, g) && Inv(place, c, s, g) && Enabled(c, s, Pass(m))
    ensures Inv(place, c, Take(place, c, s, Pass(m)), g)
  {
    if m.group == g {
      LocalIsOwner(c, m.at, g);
    }
  }

  lemma StepKeepsInv(place: Placement, c: Config, s: Sys, g: string, step: Step)
    requires Owned(c, g) && Inv(place, c, s, g)
    ensures Inv(place, c, Take(place, c, s, step), g)
  {
    if Enabled(c, s, step) {
      match step
      case Arrive(_, _, _) =>
      case Pass(m) => PassKeepsInv(place, c, s, g, m);
      case Serve(m, how) =>
        if m.req.Query? {
          QueryKeepsInv(place, c, s, g, m, how);
        } else if m.req.ids != [] {
          ServeIdKeepsInv(place, c, s, g, m, how);
        }
      case ApplyProposal(p, saveOk) => ProposalKeepsInv(place, c, s, g, p, saveOk);
      case CrashAndRestart(n) => CrashKeepsInv(place, c, s, g, n);
    }
  }

  /**
    For an owned group, in every interleaving of requests through any server,
    failed saves, and crashes: no request is forwarded twice; only the owner
    holds the group; every query sees each id acknowledged before it and
    nothing that was not written; and until a crash of the owner loses some of
    the group, crashes of other servers and of a synchronised owner included, the
    owner's registers, and so every answer, are those of one engine fed the same
    ids.
   */
  lemma {:induction false} ShardedRefinesSingle(place: Placement, c: Config, steps: seq<Step>, g: string)
    requires Owned(c, g)
    ensures Inv(place, c, Run(place, c, steps), g)
    decreases |steps|
  {
    if steps != [] {
      ShardedRefinesSingle(place, c, steps[..|steps| - 1], g);
      StepKeepsInv(place, c, Run(place, c, steps[..|steps| - 1]), g, steps[|steps| - 1]);
    }
  }

  /**
    The bookkeeping is exact: a crash ends the equality with the single engine
    precisely when it is a crash of the owner whose live registers of the group
    differ from the stored ones.
   */
  lemma CrashLosesIff(place: Placement, c: Config, s: Sys, g: string, n: string)
    requires Owned(c, g) && Inv(place, c, s, g) && n in c.nodes && g !in s.lost
    ensures var s', o := Take(place, c, s, CrashAndRestart(n)), Owner(c, g);
            && s'.engines.Keys == c.nodes
            && (Lookup(s'.engines[o], g) == Lookup(s'.single, g) <==> g !in s'.lost)
            && (g in s'.lost <==> n == o && Lookup(s.engines[o], g) != Lookup(s.stores[o], g))
  {
  }

  // ---- what the single engine holds, told by the steps alone ---------------

  /** The id a step inserts for the group, if it is one that does. */
  function WrittenBy(step: Step, g: string): set<uint64>
  {
    match step
    case Serve(m, how) =>
      if how.Inserted? && m.group == g && m.req.Write? && m.req.ids != [] then {m.req.ids[0]} else {}
    case ApplyProposal(p, _) => if p.group == g then {p.id} else {}
    case _ => {}
  }

  /** Those whose save succeeded before the reply. */
  function AckedBy(step: Step, g: string): set<uint64>
  {
    if step.Serve? && step.how.Inserted? && step.how.saveOk then WrittenBy(step, g) else {}
  }

  function WrittenIds(place: Placement, c: Config, steps: seq<Step>, g: string): set<uint64>
    decreases |steps|
  {
    if steps == [] then {}
    else
      var init, last := steps[..|steps| - 1], steps[|steps| - 1];
      WrittenIds(place, c, init, g) + if Enabled(c, Run(place, c, init), last) then WrittenBy(last, g) else {}
  }

  function AckedIds(place: Placement, c: Config, steps: seq<Step>, g: string): set<uint64>
    decreases |steps|
  {
    if steps == [] then {}
    else
      var init, last := steps[..|steps| - 1], steps[|steps| - 1];
      AckedIds(place, c, init, g) + if Enabled(c, Run(place, c, init), last) then AckedBy(last, g) else {}
  }

  lemma ServeSingle(place: Placement, c: Config, s: Sys, m: Msg, how: Disposal, g: string)
    requires Enabled(c, s, Serve(m, how))
    ensures var after := Lookup(Take(place, c, s, Serve(m, how)).single, g);
            if how.Inserted? && m.group == g && m.req.Write? && m.req.ids != []
            then after == Some(AddReg(place, RegsOf(s.single, g), m.req.ids[0]))
            else after == Lookup(s.single, g)
  {
    if how.Inserted? && m.req.Write? && m.req.ids != [] {
      InsertLookup(place, s, m.at, m.group, m.req.ids[0], how.saveOk, g);
    }
  }

  lemma StepSingle(place: Placement, c: Config, s: Sys, step: Step, g: string)
    requires Enabled(c, s, step)
    ensures var before, after := Lookup(s.single, g), Lookup(Take(place, c, s, step).single, g);
            if WrittenBy(step, g) == {} then after == before
            else exists id :: WrittenBy(step, g) == {id} && after == Some(AddReg(place, RegsOf(s.single, g), id))
  {
    match step
    case Serve(m, how) => ServeSingle(place, c, s, m, how, g);
    case ApplyProposal(p, saveOk) => InsertLookup(place, s, p.at, p.group, p.id, saveOk, g);
    case _ =>
  }

  lemma AckedPlus(s: Sys, s': Sys, h: string, id: uint64, g: string)
    requires s'.acked == s.acked + {(h, id)}
    ensures AckedIn(s', g) == AckedIn(s, g) + if h == g then {id} else {}
  {
    assert (h, id) in s'.acked;
    assert forall x | x in AckedIn(s, g) :: (g, x) in s.acked;
  }

  lemma AckedSame(s: Sys, s': Sys, g: string)
    requires s'.acked == s.acked
    ensures AckedIn(s', g) == AckedIn(s, g)
  {
  }

  lemma ServeAcks(place: Placement, c: Config, s: Sys, m: Msg, how: Disposal)
    requires Enabled(c, s, Serve(m, how))
    ensures Take(place, c, s, Serve(m, how)).acked
         == s.acked + if how == Inserted(true) && m.req.Write? && m.req.ids != [] then {(m.group, m.req.ids[0])} else {}
  {
  }

  lemma OthersDoNotAck(place: Placement, c: Config, s: Sys, step: Step)
    requires Enabled(c, s, step) && !step.Serve?
    ensures Take(place, c, s, step).acked == s.acked
  {
  }

  lemma AckedAfter(s: Sys, s': Sys, step: Step, g: string)
    requires step.Serve? ==>
               s'.acked == s.acked + if step.how == Inserted(true) && step.m.req.Write? && step.m.req.ids != []
                                     then {(step.m.group, step.m.req.ids[0])} else {}
    requires !step.Serve? ==> s'.acked == s.acked
    ensures AckedIn(s', g) == AckedIn(s, g) + AckedBy(step, g)
  {
    if step.Serve? && step.how == Inserted(true) && step.m.req.Write? && step.m.req.ids != [] {
      AckedPlus(s, s', step.m.group, step.m.req.ids[0], g);
    } else {
      assert s'.acked == s.acked && AckedBy(step, g) == {};
      AckedSame(s, s', g);
    }
  }

  lemma StepAcked(place: Placement, c: Config, s: Sys, step: Step, g: string)
    requires Enabled(c, s, step)
    ensures AckedIn(Take(place, c, s, step), g) == AckedIn(s, g) + AckedBy(step, g)
  {
    if step.Serve? {
      ServeAcks(place, c, s, step.m, step.how);
    } else {
      OthersDoNotAck(place, c, s, step);
    }
    AckedAfter(s, Take(place, c, s, step), step, g);
  }

  /** The group is present exactly if something was written, and its registers are the sketch of what was. */
  ghost predicate HoldsExactly(place: Placement, r: Option<Regs>, ids: set<uint64>)
  {
    if ids == {} then r == None else r.Some? && IsSketchOf(place, r.value, ids)
  }

  lemma OneMoreWritten(place: Placement, st: Groups, g: string, ids: set<uint64>, id: uint64)
    requires HoldsExactly(place, Lookup(st, g), ids)
    ensures HoldsExactly(place, Some(AddReg(place, RegsOf(st, g), id)), ids + {id})
  {
    assert IsSketchOf(place, RegsOf(st, g), ids);
    AddIsInsert(place, RegsOf(st, g), ids, id);
  }

  lemma StepHolds(place: Placement, c: Config, s: Sys, step: Step, g: string, ids: set<uint64>)
    requires Enabled(c, s, step) && HoldsExactly(place, Lookup(s.single, g), ids)
    ensures HoldsExactly(place, Lookup(Take(place, c, s, step).single, g), ids + WrittenBy(step, g))
  {
    var after := Lookup(Take(place, c, s, step).single, g);
    StepSingle(place, c, s, step, g);
    if WrittenBy(step, g) == {} {
      assert ids + WrittenBy(step, g) == ids;
    } else {
      var id :| WrittenBy(step, g) == {id} && after == Some(AddReg(place, RegsOf(s.single, g), id));
      OneMoreWritten(place, s.single, g, ids, id);
    }
  }

  /**
    In every run, for every group, the single engine holds exactly the ids that
    served writes and applied proposals brought.
   */
  lemma {:induction false} SingleHoldsWritten(place: Placement, c: Config, steps: seq<Step>, g: string)
    ensures HoldsExactly(place, Lookup(Run(place, c, steps).single, g), WrittenIds(place, c, steps, g))
    decreases |steps|
  {
    if steps != [] {
      var init, last := steps[..|steps| - 1], steps[|steps| - 1];
      SingleHoldsWritten(place, c, init, g);
      if Enabled(c, Run(place, c, init), last) {
        StepHolds(place, c, Run(place, c, init), last, g, WrittenIds(place, c, init, g));
      } else {
        assert WrittenIds(place, c, steps, g) == WrittenIds(place, c, init, g);
      }
    }
  }

  /** And exactly the ids saved before their reply count as acknowledged. */
  lemma {:induction false} AckedAreSaved(place: Placement, c: Config, steps: seq<Step>, g: string)
    ensures AckedIn(Run(place, c, steps), g) == AckedIds(place, c, steps, g)
    decreases |steps|
  {
    if steps != [] {
      var init, last := steps[..|steps| - 1], steps[|steps| - 1];
      AckedAreSaved(place, c, init, g);
      if Enabled(c, Run(place, c, init), last) {
        StepAcked(place, c, Run(place, c, init), last, g);
      }
    }
  }

  /** So the owner holds exactly what was written, until a crash loses some of it. */
  lemma OwnerHoldsWritten(place: Placement, c: Config, steps: seq<Step>, g: string)
    requires Owned(c, g) && g !in Run(place, c, steps).lost
    ensures Owner(c, g) in Run(place, c, steps).engines
    ensures HoldsExactly(place, Lookup(Run(place, c, steps).engines[Owner(c, g)], g), WrittenIds(place, c, steps, g))
  {
    ShardedRefinesSingle(place, c, steps, g);
    SingleHoldsWritten(place, c, steps, g);
  }

  // ---- requests arrive ---------------------------------------------------

  lemma RunOne(place: Placement, c: Config, steps: seq<Step>, x: Step)
    ensures Run(place, c, steps + [x]) == Take(place, c, Run(place, c, steps), x)
  {
    assert (steps + [x])[..|steps|] == steps;
  }

  lemma RunTwo(place: Placement, c: Config, steps: seq<Step>, x: Step, y: Step)
    ensures Run(place, c, steps + [x, y]) == Take(place, c, Take(place, c, Run(place, c, steps), x), y)
  {
    var all := steps + [x, y];
    assert all[..|all| - 1] == steps + [x] && (steps + [x])[..|steps|] == steps;
  }

  /** A request enters at any server and, unless that is the owner, is passed on once. */
  function Deliver(c: Config, entry: string, g: string, req: Request): seq<Step>
  {
    if entry == Owner(c, g) then [Arrive(entry, g, req)] else [Arrive(entry, g, req), Pass(Msg(entry, g, req, 0))]
  }

  function Delivered(c: Config, entry: string, g: string, req: Request): Msg
  {
    Msg(Owner(c, g), g, req, if entry == Owner(c, g) then 0 else 1)
  }

  lemma PassMoves(place: Placement, c: Config, s: Sys, entry: string, g: string, req: Request)
    requires Owned(c, g) && entry in c.nodes && entry != Owner(c, g)
    requires Msg(entry, g, req, 0) in s.inflight
    ensures Take(place, c, s, Pass(Msg(entry, g, req, 0)))
         == s.(inflight := s.inflight - multiset{Msg(entry, g, req, 0)} + multiset{Msg(Owner(c, g), g, req, 1)})
  {
    LocalIsOwner(c, entry, g);
  }

  /** After any run, whichever server a request enters at, it ends up waiting at the owner, who will serve it. */
  lemma RequestReachesOwner(place: Placement, c: Config, steps: seq<Step>, entry: string, g: string, req: Request,
                            how: Disposal)
    requires Owned(c, g) && entry in c.nodes && g != ""
    ensures var s, s' := Run(place, c, steps), Run(place, c, steps + Deliver(c, entry, g, req));
            var m := Delivered(c, entry, g, req);
            s' == s.(inflight := s.inflight + multiset{m}) && Enabled(c, s', Serve(m, how))
  {
    var s := Run(place, c, steps);
    ShardedRefinesSingle(place, c, steps, g);
    LocalIsOwner(c, Owner(c, g), g);
    if entry == Owner(c, g) {
      RunOne(place, c, steps, Arrive(entry, g, req));
    } else {
      var m := Msg(entry, g, req, 0);
      RunTwo(place, c, steps, Arrive(entry, g, req), Pass(m));
      var s1 := Take(place, c, s, Arrive(entry, g, req));
      PassMoves(place, c, s1, entry, g, req);
      assert s1.inflight - multiset{m} == s.inflight;
    }
  }

  /** A write through any server, saved by the owner: the owner has it live and stored, and it is acknowledged. */
  lemma WriteTakesEffect(place: Placement, c: Config, steps: seq<Step>, entry: string, g: string, id: uint64)
    requires Owned(c, g) && entry in c.nodes && g != ""
    ensures var s, o := Run(place, c, steps), Owner(c, g);
            var s' := Run(place, c, steps + Deliver(c, entry, g, Write([id]))
                                    + [Serve(Delivered(c, entry, g, Write([id])), Inserted(true))]);
            && o in s.engines && o in s'.engines && o in s'.stores
            && s'.engines[o] == AddId(place, s.engines[o], g, id)
            && Lookup(s'.stores[o], g) == Lookup(s'.engines[o], g)
            && id in AckedIn(s', g)
  {
    var m := Delivered(c, entry, g, Write([id]));
    var before := steps + Deliver(c, entry, g, Write([id]));
    RequestReachesOwner(place, c, steps, entry, g, Write([id]), Inserted(true));
    ShardedRefinesSingle(place, c, steps, g);
    RunOne(place, c, before, Serve(m, Inserted(true)));
    assert (g, id) in Run(place, c, before + [Serve(m, Inserted(true))]).acked;
  }

  /** The owner works off the first k ids of a batch, saving each. */
  function ServeFirst(c: Config, entry: string, g: string, ids: seq<uint64>, k: nat): seq<Step>
    requires k <= |ids|
  {
    if k == 0 then []
    else ServeFirst(c, entry, g, ids, k - 1) + [Serve(Delivered(c, entry, g, Write(ids[k - 1..])), Inserted(true))]
  }

  function IdSet(ids: seq<uint64>): set<uint64>
  {
    set id | id in ids
  }

  /** The first k ids are in, in order, acknowledged and stored, and the rest of the batch waits at the owner. */
  ghost predicate ServedFirst(place: Placement, c: Config, s: Sys, s': Sys, entry: string, g: string, ids: seq<uint64>, k: nat)
    requires k <= |ids|
  {
    var o := Owner(c, g);
    && o in s.engines && o in s.stores && o in s'.engines && o in s'.stores
    && s'.inflight == s.inflight + multiset{Delivered(c, entry, g, Write(ids[k..]))}
    && s'.engines[o] == AddIds(place, s.engines[o], g, ids[..k])
    && Lookup(s'.stores[o], g) == (if k == 0 then Lookup(s.stores[o], g) else Lookup(s'.engines[o], g))
    && AckedIn(s', g) == AckedIn(s, g) + IdSet(ids[..k])
  }

  lemma ServeNextData(place: Placement, c: Config, s': Sys, m: Msg)
    requires Enabled(c, s', Serve(m, Inserted(true))) && m.req.Write? && m.req.ids != []
    ensures var s'' := Take(place, c, s', Serve(m, Inserted(true)));
            && m.at in s''.engines && m.at in s''.stores
            && s''.engines[m.at] == AddId(place, s'.engines[m.at], m.group, m.req.ids[0])
            && Lookup(s''.stores[m.at], m.group) == Lookup(s''.engines[m.at], m.group)
            && s''.inflight == s'.inflight - multiset{m} + multiset{m.(req := Write(m.req.ids[1..]))}
  {
  }

  lemma ServeNextAcked(place: Placement, c: Config, s: Sys, m: Msg)
    requires Enabled(c, s, Serve(m, Inserted(true))) && m.req.Write? && m.req.ids != []
    ensures AckedIn(Take(place, c, s, Serve(m, Inserted(true))), m.group) == AckedIn(s, m.group) + {m.req.ids[0]}
  {
    StepAcked(place, c, s, Serve(m, Inserted(true)), m.group);
  }

  lemma Replaced(waiting: multiset<Msg>, m: Msg, m': Msg)
    ensures waiting + multiset{m} - multiset{m} + multiset{m'} == waiting + multiset{m'}
  {
  }

  lemma OneMoreId(place: Placement, st: Groups, g: string, ids: seq<uint64>, k: nat)
    requires k < |ids|
    ensures AddIds(place, st, g, ids[..k + 1]) == AddId(place, AddIds(place, st, g, ids[..k]), g, ids[k])
    ensures IdSet(ids[..k + 1]) == IdSet(ids[..k]) + {ids[k]}
  {
    assert ids[..k + 1][..k] == ids[..k] && ids[..k + 1] == ids[..k] + [ids[k]];
  }

  lemma ServeNext(place: Placement, c: Config, s: Sys, s': Sys, entry: string, g: string, ids: seq<uint64>, k: nat)
    requires Owned(c, g) && k < |ids| && ServedFirst(place, c, s, s', entry, g, ids, k)
    ensures ServedFirst(place, c, s, Take(place, c, s', Serve(Delivered(c, entry, g, Write(ids[k..])), Inserted(true))),
                        entry, g, ids, k + 1)
  {
    var m := Delivered(c, entry, g, Write(ids[k..]));
    LocalIsOwner(c, Owner(c, g), g);
    assert ids[k..][0] == ids[k] && ids[k..][1..] == ids[k + 1..];
    ServeNextData(place, c, s', m);
    OneMoreId(place, s.engines[Owner(c, g)], g, ids, k);
    ServeNextAcked(place, c, s', m);
    Replaced(s.inflight, m, m.(req := Write(ids[k + 1..])));
  }

  lemma BatchStart(place: Placement, c: Config, steps: seq<Step>, entry: string, g: string, ids: seq<uint64>)
    requires Owned(c, g) && entry in c.nodes && g != ""
    ensures ServedFirst(place, c, Run(place, c, steps), Run(place, c, steps + Deliver(c, entry, g, Write(ids))),
                        entry, g, ids, 0)
  {
    var s, s' := Run(place, c, steps), Run(place, c, steps + Deliver(c, entry, g, Write(ids)));
    RequestReachesOwner(place, c, steps, entry, g, Write(ids), Inserted(true));
    ShardedRefinesSingle(place, c, steps, g);
    assert ids[0..] == ids && ids[..0] == [];
    AckedSame(s, s', g);
  }

  lemma Regroup(a: seq<Step>, b: seq<Step>, x: Step)
    ensures a + (b + [x]) == (a + b) + [x]
  {
  }

  lemma {:induction false} BatchProgress(place: Placement, c: Config, steps: seq<Step>, before: seq<Step>,
                                         entry: string, g: string, ids: seq<uint64>, k: nat)
    requires Owned(c, g) && entry in c.nodes && g != "" && k <= |ids|
    requires before == steps + Deliver(c, entry, g, Write(ids))
    ensures ServedFirst(place, c, Run(place, c, steps), Run(place, c, before + ServeFirst(c, entry, g, ids, k)),
                        entry, g, ids, k)
    decreases k
  {
    if k == 0 {
      BatchStart(place, c, steps, entry, g, ids);
      assert before + [] == before;
    } else {
      BatchProgress(place, c, steps, before, entry, g, ids, k - 1);
      var first := ServeFirst(c, entry, g, ids, k - 1);
      var step := Serve(Delivered(c, entry, g, Write(ids[k - 1..])), Inserted(true));
      ServeNext(place, c, Run(place, c, steps), Run(place, c, before + first), entry, g, ids, k - 1);
      RunOne(place, c, before + first, step);
      Regroup(before, first, step);
    }
  }

  lemma LastServe(place: Placement, c: Config, s: Sys, m: Msg, how: Disposal)
    requires Enabled(c, s, Serve(m, how)) && m.req == Write([])
    ensures Take(place, c, s, Serve(m, how)) == s.(inflight := s.inflight - multiset{m})
  {
  }

  /**
    A batch of any length through any server, every save succeeding: the owner
    ends up with all ids, live and stored, all are acknowledged, and the request
    is gone.
   */
  lemma BatchTakesEffect(place: Placement, c: Config, steps: seq<Step>, entry: string, g: string, ids: seq<uint64>,
                         how: Disposal)
    requires Owned(c, g) && entry in c.nodes && g != ""
    ensures var s, o := Run(place, c, steps), Owner(c, g);
            var s' := Run(place, c, steps + Deliver(c, entry, g, Write(ids)) + ServeFirst(c, entry, g, ids, |ids|)
                                    + [Serve(Delivered(c, entry, g, Write([])), how)]);
            && s'.inflight == s.inflight
            && o in s.engines && o in s'.engines && o in s'.stores
            && s'.engines[o] == AddIds(place, s.engines[o], g, ids)
            && (ids != [] ==> Lookup(s'.stores[o], g) == Lookup(s'.engines[o], g))
            && AckedIn(s', g) == AckedIn(s, g) + IdSet(ids)
  {
    var before := steps + Deliver(c, entry, g, Write(ids)) + ServeFirst(c, entry, g, ids, |ids|);
    var m := Delivered(c, entry, g, Write([]));
    BatchProgress(place, c, steps, steps + Deliver(c, entry, g, Write(ids)), entry, g, ids, |ids|);
    assert ids[|ids|..] == [] && ids[..|ids|] == ids;
    LocalIsOwner(c, Owner(c, g), g);
    RunOne(place, c, before, Serve(m, how));
    LastServe(place, c, Run(place, c, before), m, how);
    AckedSame(Run(place, c, before), Run(place, c, before + [Serve(m, how)]), g);
  }

  lemma ServedProposal(place: Placement, c: Config, s: Sys, m: Msg)
    requires Enabled(c, s, Serve(m, Proposed)) && m.req.Write? && |m.req.ids| == 1
    ensures var s', p := Take(place, c, s, Serve(m, Proposed)), Proposal(m.at, m.group, m.req.ids[0]);
            p in s'.proposals && s'.engines == s.engines && s'.stores == s.stores
  {
  }

  lemma AppliedProposal(place: Placement, c: Config, s: Sys, p: Proposal, saveOk: bool)
    requires p in s.proposals && p.at in s.engines && p.at in s.stores
    ensures var s' := Take(place, c, s, ApplyProposal(p, saveOk));
            && p.at in s'.engines && p.at in s'.stores
            && s'.engines[p.at] == AddId(place, s.engines[p.at], p.group, p.id)
            && Lookup(s'.stores[p.at], p.group)
               == if saveOk then Lookup(s'.engines[p.at], p.group) else Lookup(s.stores[p.at], p.group)
  {
  }

  /** A write through any server that the owner proposes to Raft: once applied, it is in the owner's engine. */
  lemma ProposalTakesEffect(place: Placement, c: Config, steps: seq<Step>, entry: string, g: string, id: uint64, saveOk: bool)
    requires Owned(c, g) && entry in c.nodes && g != ""
    ensures var s, o := Run(place, c, steps), Owner(c, g);
            var s' := Run(place, c, steps + Deliver(c, entry, g, Write([id]))
                                    + [Serve(Delivered(c, entry, g, Write([id])), Proposed),
                                       ApplyProposal(Proposal(o, g, id), saveOk)]);
            && o in s.engines && o in s'.engines && o in s'.stores && o in s.stores
            && s'.engines[o] == AddId(place, s.engines[o], g, id)
            && Lookup(s'.stores[o], g) == if saveOk then Lookup(s'.engines[o], g) else Lookup(s.stores[o], g)
  {
    var m := Delivered(c, entry, g, Write([id]));
    var before := steps + Deliver(c, entry, g, Write([id]));
    RequestReachesOwner(place, c, steps, entry, g, Write([id]), Proposed);
    ShardedRefinesSingle(place, c, steps, g);
    RunTwo(place, c, before, Serve(m, Proposed), ApplyProposal(Proposal(Owner(c, g), g, id), saveOk));
    ServedProposal(place, c, Run(place, c, before), m);
    AppliedProposal(place, c, Take(place, c, Run(place, c, before), Serve(m, Proposed)), Proposal(Owner(c, g), g, id), saveOk);
  }

  /** A query through any server is answered with the owner's live registers. */
  lemma QueryIsAnswered(place: Placement, c: Config, steps: seq<Step>, entry: string, g: string, how: Disposal)
    requires Owned(c, g) && entry in c.nodes && g != ""
    ensures var s := Run(place, c, steps);
            && Owner(c, g) in s.engines
            && Run(place, c, steps + Deliver(c, entry, g, Query) + [Serve(Delivered(c, entry, g, Query), how)]).answers
               == s.answers + [Answer(g, Lookup(s.engines[Owner(c, g)], g), Lookup(s.single, g), AckedIn(s, g), g !in s.lost)]
  {
    RequestReachesOwner(place, c, steps, entry, g, Query, how);
    ShardedRefinesSingle(place, c, steps, g);
    RunOne(place, c, steps + Deliver(c, entry, g, Query), Serve(Delivered(c, entry, g, Query), how));
  }

  // ---- when every group is owned -----------------------------------------

  /** Servers started with the same list of non-empty peer addresses own every group, collisions or not. */
  lemma StartupOwnsEverything(hash: Hasher, peers: seq<string>, g: string)
    requires peers != [] && "" !in peers
    ensures Owned(Config(hash, StartupRing(hash, peers), set a | a in peers), g)
  {
    StartupResolvesToPeer(hash, peers, g);
  }

  /** Write one id through a server, which saves and acknowledges it. */
  function WriteVia(a: string, g: string, id: uint64): seq<Step>
  {
    [Arrive(a, g, Write([id])), Serve(Msg(a, g, Write([id]), 0), Inserted(true))]
  }

  /** Query a server. */
  function AskVia(b: string, g: string): seq<Step>
  {
    [Arrive(b, g, Query), Serve(Msg(b, g, Query, 0), Refused)]
  }

  lemma WrittenAtEntry(place: Placement, c: Config, s: Sys, a: string, g: string, id: uint64)
    requires a in c.nodes && s.engines.Keys == s.stores.Keys == c.nodes && g != "" && Owner(c, g) == ""
    ensures var s' := Take(place, c, Take(place, c, s, WriteVia(a, g, id)[0]), WriteVia(a, g, id)[1]);
            && s'.engines.Keys == s'.stores.Keys == c.nodes && s'.acked == s.acked + {(g, id)} && s'.answers == s.answers
            && forall n | n in c.nodes && n != a :: s'.engines[n] == s.engines[n]
  {
    assert Msg(a, g, Write([id]), 0) in Take(place, c, s, Arrive(a, g, Write([id]))).inflight;
  }

  lemma AckedOnly(s: Sys, g: string, id: uint64)
    requires s.acked == {(g, id)}
    ensures AckedIn(s, g) == {id}
  {
    assert (g, id) in s.acked;
  }

  lemma AcknowledgedAtEntry(place: Placement, c: Config, a: string, b: string, g: string, id: uint64)
    requires a in c.nodes && b in c.nodes && a != b && g != "" && Owner(c, g) == ""
    ensures var s := Run(place, c, WriteVia(a, g, id));
            && s.engines.Keys == s.stores.Keys == c.nodes && g !in s.engines[b]
            && AckedIn(s, g) == {id} && s.answers == []
  {
    var steps := WriteVia(a, g, id);
    assert [] + steps == steps;
    RunTwo(place, c, [], steps[0], steps[1]);
    WrittenAtEntry(place, c, Start(c), a, g, id);
    AckedOnly(Run(place, c, steps), g, id);
  }

  lemma AskedAtEntry(place: Placement, c: Config, steps: seq<Step>, b: string, g: string)
    requires var s := Run(place, c, steps); b in c.nodes && s.engines.Keys == s.stores.Keys == c.nodes
    requires g != "" && Owner(c, g) == ""
    ensures var s := Run(place, c, steps);
            Run(place, c, steps + AskVia(b, g)).answers
            == s.answers + [Answer(g, Lookup(s.engines[b], g), Lookup(s.single, g), AckedIn(s, g), g !in s.lost)]
  {
    var s := Run(place, c, steps);
    RunTwo(place, c, steps, Arrive(b, g, Query), Serve(Msg(b, g, Query, 0), Refused));
    assert Msg(b, g, Query, 0) in Take(place, c, s, Arrive(b, g, Query)).inflight;
  }

  /** Without an owner each server keeps the group to itself: an acknowledged write through a is invisible through b. */
  lemma OwnerlessGroupSplits(place: Placement, c: Config, a: string, b: string, g: string, id: uint64)
    requires a in c.nodes && b in c.nodes && a != b && g != "" && Owner(c, g) == ""
    ensures var answers := Run(place, c, WriteVia(a, g, id) + AskVia(b, g)).answers;
            |answers| == 1 && answers[0].group == g && answers[0].got == None && answers[0].acked == {id}
  {
    AcknowledgedAtEntry(place, c, a, b, g, id);
    AskedAtEntry(place, c, WriteVia(a, g, id), b, g);
  }

  /** Exactly when a cluster answers as one engine would: when the ring gives the group an owner. */
  lemma FaithfulIffOwned(place: Placement, c: Config, a: string, b: string, g: string)
    requires a in c.nodes && b in c.nodes && a != b && "" !in c.nodes && g != ""
    requires Owner(c, g) in c.nodes + {""}
    ensures (forall steps: seq<Step> :: AnswersOk(place, Run(place, c, steps), g)) <==> Owner(c, g) != ""
  {
    if Owner(c, g) != "" {
      forall steps: seq<Step> ensures AnswersOk(place, Run(place, c, steps), g) {
        ShardedRefinesSingle(place, c, steps, g);
      }
    } else {
      OwnerlessGroupSplits(place, c, a, b, g, 0);
      var s := Run(place, c, WriteVia(a, g, 0) + AskVia(b, g));
      assert s.answers[0] in s.answers && 0 in s.answers[0].acked;
      assert !AnswersOk(place, s, g);
    }
  }
}
