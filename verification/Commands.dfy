/**
  Replicated commands as functions on the abstract engine state (a map from
  group to registers), and the law all replication rests on: whatever its
  payload, a command joins a fixed value into the state.
 */
module Commands {
  import opened Base
  import opened Bits
  import opened Hll
  import opened Lattice
  import opened Varint

  // ---- engine operations on abstract states ------------------------------

  function RegsOf(st: Groups, g: string): Regs
  {
    if g in st then st[g] else EmptyRegs()
  }

  function AddId(place: Placement, st: Groups, g: string, id: uint64): Groups
  {
    st[g := AddReg(place, RegsOf(st, g), id)]
  }

  function AddIds(place: Placement, st: Groups, g: string, ids: seq<uint64>): Groups
    decreases |ids|
  {
    if ids == [] then st
    else AddId(place, AddIds(place, st, g, ids[..|ids| - 1]), g, ids[|ids| - 1])
  }

  function MergeInto(st: Groups, g: string, r: Regs): Groups
  {
    st[g := if g in st then JoinRegs(st[g], r) else r]
  }

  datatype Applied = Applied(groups: Groups, outcome: Outcome)

  function MergeBytes(st: Groups, g: string, algo: string, b: seq<byte>): Applied
  {
    if algo != ALGO_NAME then Applied(st, Err(ErrAlgoMismatch))
    else match Parse(b)
      case None => Applied(st, Err(ErrParse))
      case Some(r) => Applied(MergeInto(st, g, r), Ok)
  }

  // ---- payload decoding --------------------------------------------------

  datatype Decoded = Decoded(ids: seq<uint64>, complete: bool)

  /** Read up to n ids; stop early, keeping those read, at the first that does not decode. */
  function DecodeIds(buf: seq<byte>, n: nat): (d: Decoded)
    ensures |d.ids| <= n && |d.ids| <= |buf| && (d.complete <==> |d.ids| == n)
    decreases |buf|
  {
    if n == 0 then Decoded([], true)
    else match Uvarint(buf)
      case Bad => Decoded([], false)
      case Value(id, m) =>
        var rest := DecodeIds(buf[m..], n - 1);
        Decoded([id] + rest.ids, rest.complete)
  }

  datatype Command = Command(ctype: string, group: string, payload: seq<byte>)

  const TYPE_ADD := "ADD"
  const TYPE_BATCH_ADD := "BATCH_ADD"
  const TYPE_MERGE_SKETCH := "MERGE_SKETCH"

  function ApplyAdd(place: Placement, st: Groups, c: Command): Applied
  {
    match Uvarint(c.payload)
    case Bad => Applied(st, Err(ErrBadPayload))
    case Value(id, n) =>
      if n != |c.payload| then Applied(st, Err(ErrBadPayload)) else Applied(AddId(place, st, c.group, id), Ok)
  }

  function PrefixAdded(place: Placement, st: Groups, g: string, d: Decoded): Applied
  {
    Applied(AddIds(place, st, g, d.ids), if d.complete then Ok else Err(ErrBadPayload))
  }

  function ApplyBatchAdd(place: Placement, st: Groups, c: Command): Applied
  {
    match Uvarint(c.payload)
    case Bad => Applied(st, Err(ErrBadPayload))
    case Value(n, k) =>
      PrefixAdded(place, st, c.group, DecodeIds(c.payload[k..], n))
  }

  function ApplyMergeSketch(st: Groups, c: Command): Applied
  {
    match Uvarint(c.payload)
    case Bad => Applied(st, Err(ErrBadPayload))
    case Value(len, n) =>
      var buf := c.payload[n..];
      if |buf| < len then Applied(st, Err(ErrBadPayload))
      else MergeBytes(st, c.group, BytesToString(buf[..len]), buf[len..])
  }

  datatype Handler = HandleAdd | HandleBatchAdd | HandleMergeSketch

  type Handlers = map<string, Handler>

  /** The handlers every production node registers. */
  function DefaultHandlers(): Handlers
  {
    map[TYPE_ADD := HandleAdd, TYPE_BATCH_ADD := HandleBatchAdd, TYPE_MERGE_SKETCH := HandleMergeSketch]
  }

  function DispatchWith(handlers: Handlers, place: Placement, st: Groups, c: Command): Applied
  {
    if c.ctype !in handlers then Applied(st, Err(ErrUnknownCommand))
    else match handlers[c.ctype]
      case HandleAdd => ApplyAdd(place, st, c)
      case HandleBatchAdd => ApplyBatchAdd(place, st, c)
      case HandleMergeSketch => ApplyMergeSketch(st, c)
  }

  function Dispatch(place: Placement, st: Groups, c: Command): Applied
  {
    DispatchWith(DefaultHandlers(), place, st, c)
  }

  /** What a command contributes: what it leaves in an empty engine. */
  function Effect(place: Placement, c: Command): Groups
  {
    Dispatch(place, map[], c).groups
  }

  // ---- every command is a join -------------------------------------------

  lemma AddIdIsJoin(place: Placement, st: Groups, g: string, id: uint64)
    ensures AddId(place, st, g, id) == Join(st, map[g := Mark(place, id)])
  {
    JoinRegsLaws(Mark(place, id), Mark(place, id), Mark(place, id));
  }

  lemma {:induction false} AddIdsIsJoin(place: Placement, st: Groups, g: string, ids: seq<uint64>)
    ensures AddIds(place, st, g, ids) == Join(st, AddIds(place, map[], g, ids))
    decreases |ids|
  {
    if ids != [] {
      var init, id := ids[..|ids| - 1], ids[|ids| - 1];
      var mark := map[g := Mark(place, id)];
      calc {
        AddIds(place, st, g, ids);
        { AddIdIsJoin(place, AddIds(place, st, g, init), g, id); }
        Join(AddIds(place, st, g, init), mark);
        { AddIdsIsJoin(place, st, g, init); }
        Join(Join(st, AddIds(place, map[], g, init)), mark);
        { JoinAssociative(st, AddIds(place, map[], g, init), mark); }
        Join(st, Join(AddIds(place, map[], g, init), mark));
        { AddIdIsJoin(place, AddIds(place, map[], g, init), g, id); }
        Join(st, AddIds(place, map[], g, ids));
      }
    } else {
      assert Join(st, map[]) == st;
    }
  }

  lemma MergeIsJoin(st: Groups, g: string, r: Regs)
    ensures MergeInto(st, g, r) == Join(st, map[g := r])
  {
  }

  lemma MergeBytesIsJoin(st: Groups, g: string, algo: string, b: seq<byte>)
    ensures MergeBytes(st, g, algo, b).groups == Join(st, MergeBytes(map[], g, algo, b).groups)
    ensures MergeBytes(st, g, algo, b).outcome == MergeBytes(map[], g, algo, b).outcome
  {
  }

  lemma ApplyAddIsJoin(place: Placement, st: Groups, c: Command)
    ensures ApplyAdd(place, st, c).groups == Join(st, ApplyAdd(place, map[], c).groups)
    ensures ApplyAdd(place, st, c).outcome == ApplyAdd(place, map[], c).outcome
  {
    assert Join(st, map[]) == st;
    var v := Uvarint(c.payload);
    if v.Value? {
      AddIdIsJoin(place, st, c.group, v.x);
      AddIdIsJoin(place, map[], c.group, v.x);
      assert Join(map[], map[c.group := Mark(place, v.x)]) == map[c.group := Mark(place, v.x)];
    }
  }

  lemma ApplyBatchAddIsJoin(place: Placement, st: Groups, c: Command)
    ensures ApplyBatchAdd(place, st, c).groups == Join(st, ApplyBatchAdd(place, map[], c).groups)
    ensures ApplyBatchAdd(place, st, c).outcome == ApplyBatchAdd(place, map[], c).outcome
  {
    assert Join(st, map[]) == st;
    var v := Uvarint(c.payload);
    if v.Value? {
      AddIdsIsJoin(place, st, c.group, DecodeIds(c.payload[v.n..], v.x).ids);
    }
  }

  lemma ApplyMergeSketchIsJoin(st: Groups, c: Command)
    ensures ApplyMergeSketch(st, c).groups == Join(st, ApplyMergeSketch(map[], c).groups)
    ensures ApplyMergeSketch(st, c).outcome == ApplyMergeSketch(map[], c).outcome
  {
    assert Join(st, map[]) == st;
    var v := Uvarint(c.payload);
    if v.Value? && v.x <= |c.payload| - v.n {
      var buf := c.payload[v.n..];
      MergeBytesIsJoin(st, c.group, BytesToString(buf[..v.x]), buf[v.x..]);
    }
  }

  /** So for any registry over these handlers. */
  lemma DispatchWithIsJoin(handlers: Handlers, place: Placement, st: Groups, c: Command)
    ensures DispatchWith(handlers, place, st, c).groups == Join(st, DispatchWith(handlers, place, map[], c).groups)
    ensures DispatchWith(handlers, place, st, c).outcome == DispatchWith(handlers, place, map[], c).outcome
  {
    if c.ctype !in handlers {
      assert Join(st, map[]) == st;
    } else {
      match handlers[c.ctype]
      case HandleAdd => ApplyAddIsJoin(place, st, c);
      case HandleBatchAdd => ApplyBatchAddIsJoin(place, st, c);
      case HandleMergeSketch => ApplyMergeSketchIsJoin(st, c);
    }
  }

  /** A command's verdict does not depend on the state, and its effect is to join a value that does not either. */
  lemma DispatchIsJoin(place: Placement, st: Groups, c: Command)
    ensures Dispatch(place, st, c).groups == Join(st, Effect(place, c))
    ensures Dispatch(place, st, c).outcome == Dispatch(place, map[], c).outcome
  {
    DispatchWithIsJoin(DefaultHandlers(), place, st, c);
  }

  /** Applying a command again changes nothing, which is why replay after a restart is safe. */
  lemma DispatchIsIdempotent(place: Placement, st: Groups, c: Command)
    ensures var once := Dispatch(place, st, c).groups;
            Dispatch(place, once, c).groups == once
  {
    var once := Dispatch(place, st, c).groups;
    DispatchIsJoin(place, st, c);
    DispatchIsJoin(place, once, c);
    JoinUpper(st, Effect(place, c));
    JoinAbsorbs(once, Effect(place, c));
  }

  /** A command touches no group but its own. */
  lemma {:induction false} EffectIsLocal(place: Placement, c: Command)
    ensures Effect(place, c).Keys <= {c.group}
  {
    var v := Uvarint(c.payload);
    if c.ctype == TYPE_BATCH_ADD && v.Value? {
      AddIdsIsLocal(place, c.group, DecodeIds(c.payload[v.n..], v.x).ids);
    }
  }

  lemma {:induction false} AddIdsIsLocal(place: Placement, g: string, ids: seq<uint64>)
    ensures AddIds(place, map[], g, ids).Keys == if ids == [] then {} else {g}
    decreases |ids|
  {
    if ids != [] {
      AddIdsIsLocal(place, g, ids[..|ids| - 1]);
    }
  }

  // ---- payloads ----------------------------------------------------------

  function EncodeIds(ids: seq<uint64>): seq<byte>
  {
    if ids == [] then [] else PutUvarint(ids[0]) + EncodeIds(ids[1..])
  }

  /** The command ProposeAdd submits. */
  function AddCommand(g: string, id: uint64): Command
  {
    Command(TYPE_ADD, g, PutUvarint(id))
  }

  function BatchCommand(g: string, ids: seq<uint64>): Command
    requires |ids| < 0x1_0000_0000_0000_0000
  {
    Command(TYPE_BATCH_ADD, g, PutUvarint(|ids|) + EncodeIds(ids))
  }

  lemma AddCommandAdds(place: Placement, st: Groups, g: string, id: uint64)
    ensures Dispatch(place, st, AddCommand(g, id)) == Applied(AddId(place, st, g, id), Ok)
  {
    UvarintUndoesPut(id, []);
    assert PutUvarint(id) + [] == PutUvarint(id);
  }

  /** ADD accepts exactly a payload that is one terminated varint below 2^64 and nothing else, and adds its value. */
  lemma AddAcceptsOneVarint(place: Placement, st: Groups, g: string, payload: seq<byte>)
    ensures var d := Dispatch(place, st, Command(TYPE_ADD, g, payload));
            if IsTerminated(payload, |payload|) && |payload| <= 10 && Base128(payload) < 0x1_0000_0000_0000_0000 then
              d == Applied(AddId(place, st, g, Base128(payload)), Ok)
            else
              d == Applied(st, Err(ErrBadPayload))
  {
    assert payload[..|payload|] == payload;
    if IsTerminated(payload, |payload|) && |payload| <= 10 && Base128(payload) < 0x1_0000_0000_0000_0000 {
      UvarintExact(payload, Base128(payload), |payload|);
    }
    var v := Uvarint(payload);
    if v.Value? {
      UvarintExact(payload, v.x, v.n);
    }
  }

  lemma DecodeStep(buf: seq<byte>, id: uint64, more: seq<byte>, n: nat)
    requires buf == PutUvarint(id) + more
    ensures DecodeIds(buf, n + 1) == Decoded([id] + DecodeIds(more, n).ids, DecodeIds(more, n).complete)
  {
    UvarintUndoesPut(id, more);
    assert buf[|PutUvarint(id)|..] == more;
  }

  lemma EncodeStep(ids: seq<uint64>, rest: seq<byte>)
    requires ids != []
    ensures EncodeIds(ids) + rest == PutUvarint(ids[0]) + (EncodeIds(ids[1..]) + rest)
  {
    var first, others := PutUvarint(ids[0]), EncodeIds(ids[1..]);
    assert (first + others) + rest == first + (others + rest);
  }

  lemma {:induction false} DecodeUndoesEncode(ids: seq<uint64>, rest: seq<byte>)
    ensures DecodeIds(EncodeIds(ids) + rest, |ids|) == Decoded(ids, true)
    decreases |ids|
  {
    if ids != [] {
      var id, tail := ids[0], ids[1..];
      DecodeUndoesEncode(tail, rest);
      EncodeStep(ids, rest);
      DecodeStep(EncodeIds(ids) + rest, id, EncodeIds(tail) + rest, |tail|);
      assert [id] + tail == ids;
    }
  }

  /** Dispatching one ADD per id, in order. */
  function DispatchAdds(place: Placement, st: Groups, g: string, ids: seq<uint64>): Groups
    decreases |ids|
  {
    if ids == [] then st
    else Dispatch(place, DispatchAdds(place, st, g, ids[..|ids| - 1]), AddCommand(g, ids[|ids| - 1])).groups
  }

  /** One BATCH_ADD, even with trailing bytes, does what the sequence of ADDs does. */
  lemma BatchIsAdds(place: Placement, st: Groups, g: string, ids: seq<uint64>, rest: seq<byte>)
    requires |ids| < 0x1_0000_0000_0000_0000
    ensures var c := BatchCommand(g, ids);
            Dispatch(place, st, c.(payload := c.payload + rest)) == Applied(DispatchAdds(place, st, g, ids), Ok)
  {
    var payload := PutUvarint(|ids|) + EncodeIds(ids) + rest;
    assert payload == PutUvarint(|ids|) + (EncodeIds(ids) + rest);
    UvarintUndoesPut(|ids|, EncodeIds(ids) + rest);
    assert payload[|PutUvarint(|ids|)|..] == EncodeIds(ids) + rest;
    DecodeUndoesEncode(ids, rest);
    AddsAreAddIds(place, st, g, ids);
  }

  lemma {:induction false} AddsAreAddIds(place: Placement, st: Groups, g: string, ids: seq<uint64>)
    ensures DispatchAdds(place, st, g, ids) == AddIds(place, st, g, ids)
    decreases |ids|
  {
    if ids != [] {
      var init := ids[..|ids| - 1];
      AddsAreAddIds(place, st, g, init);
      AddCommandAdds(place, AddIds(place, st, g, init), g, ids[|ids| - 1]);
    }
  }

  /** `ids` are the leading varints of buf and `rest` is what follows them. */
  ghost predicate Consumes(buf: seq<byte>, ids: seq<uint64>, rest: seq<byte>)
    decreases |ids|
  {
    if ids == [] then rest == buf
    else match Uvarint(buf)
      case Bad => false
      case Value(id, m) => id == ids[0] && Consumes(buf[m..], ids[1..], rest)
  }

  lemma {:induction false} ConsumesOneMore(buf: seq<byte>, ids: seq<uint64>, rest: seq<byte>)
    requires Consumes(buf, ids, rest) && Uvarint(rest).Value?
    ensures Consumes(buf, ids + [Uvarint(rest).x], rest[Uvarint(rest).n..])
    decreases |ids|
  {
    var id := Uvarint(rest).x;
    if ids == [] {
      assert ([] + [id])[1..] == [];
    } else {
      ConsumesOneMore(buf[Uvarint(buf).n..], ids[1..], rest);
      assert (ids + [id])[1..] == ids[1..] + [id];
    }
  }

  /** The decoded ids are the longest run of leading varints, cut off at n. */
  lemma {:induction false} DecodesMaximalPrefix(buf: seq<byte>, n: nat) returns (rest: seq<byte>)
    ensures var ids := DecodeIds(buf, n).ids;
            Consumes(buf, ids, rest) && (|ids| < n ==> Uvarint(rest) == Bad)
    decreases |buf|
  {
    rest := buf;
    if n != 0 && Uvarint(buf).Value? {
      var m := Uvarint(buf).n;
      rest := DecodesMaximalPrefix(buf[m..], n - 1);
      assert DecodeIds(buf, n).ids[1..] == DecodeIds(buf[m..], n - 1).ids;
    }
  }

  /** Nothing else is: any run of leading varints that is full or ends at a bad one is the decoded run. */
  lemma {:induction false} MaximalPrefixUnique(buf: seq<byte>, n: nat, ids: seq<uint64>, rest: seq<byte>)
    requires Consumes(buf, ids, rest) && |ids| <= n && (|ids| < n ==> Uvarint(rest) == Bad)
    ensures DecodeIds(buf, n) == Decoded(ids, |ids| == n)
    decreases |ids|
  {
    if ids != [] {
      MaximalPrefixUnique(buf[Uvarint(buf).n..], n - 1, ids[1..], rest);
      assert ids == [ids[0]] + ids[1..];
    }
  }

  /** A rejected command changes nothing, except a BATCH_ADD, which keeps the ids it could decode. */
  lemma RejectionKeepsPrefix(place: Placement, st: Groups, c: Command)
    requires Dispatch(place, st, c).outcome.Err?
    ensures Dispatch(place, st, c).groups != st ==> c.ctype == TYPE_BATCH_ADD && Uvarint(c.payload).Value?
    ensures c.ctype == TYPE_BATCH_ADD && Uvarint(c.payload).Value? ==>
              var v := Uvarint(c.payload);
              var d := DecodeIds(c.payload[v.n..], v.x);
              |d.ids| < v.x && Dispatch(place, st, c).groups == AddIds(place, st, c.group, d.ids)
  {
  }

  // ---- sketch envelopes --------------------------------------------------

  function StringToBytes(s: string): seq<byte>
    requires forall i | 0 <= i < |s| :: s[i] as int < 0x100
  {
    seq(|s|, i requires 0 <= i < |s| => s[i] as byte)
  }

  /** [varint length][algorithm name][sketch bytes]. */
  function Envelope(algo: string, sketch: seq<byte>): seq<byte>
    requires |algo| < 0x1_0000_0000_0000_0000
    requires forall i | 0 <= i < |algo| :: algo[i] as int < 0x100
  {
    PutUvarint(|algo|) + StringToBytes(algo) + sketch
  }

  lemma EnvelopeOpens(place: Placement, st: Groups, g: string, algo: string, sketch: seq<byte>)
    requires |algo| < 0x1_0000_0000_0000_0000
    requires forall i | 0 <= i < |algo| :: algo[i] as int < 0x100
    ensures Dispatch(place, st, Command(TYPE_MERGE_SKETCH, g, Envelope(algo, sketch))) == MergeBytes(st, g, algo, sketch)
  {
    var payload := Envelope(algo, sketch);
    assert payload == PutUvarint(|algo|) + (StringToBytes(algo) + sketch);
    UvarintUndoesPut(|algo|, StringToBytes(algo) + sketch);
    var buf := payload[|PutUvarint(|algo|)|..];
    assert buf == StringToBytes(algo) + sketch;
    assert buf[..|algo|] == StringToBytes(algo) && buf[|algo|..] == sketch;
    assert BytesToString(StringToBytes(algo)) == algo;
  }

  /** Merging another engine's serialised sketch takes the pointwise maximum, or copies it into an absent group. */
  lemma MergeSketchMerges(place: Placement, st: Groups, g: string, r: Regs, algo: string)
    requires |algo| < 0x1_0000_0000_0000_0000
    requires forall i | 0 <= i < |algo| :: algo[i] as int < 0x100
    ensures var d := Dispatch(place, st, Command(TYPE_MERGE_SKETCH, g, Envelope(algo, Bytes(r))));
            if algo == ALGO_NAME then
              d.outcome == Ok && d.groups == Join(st, map[g := r])
            else
              d.outcome == Err(ErrAlgoMismatch) && d.groups == st
  {
    EnvelopeOpens(place, st, g, algo, Bytes(r));
    ParseUndoesBytes(r, []);
    MergeIsJoin(st, g, r);
  }

  // ---- every command, exactly --------------------------------------------

  /** buf begins with one terminated varint of n bytes that denotes x. */
  ghost predicate Reads(buf: seq<byte>, x: uint64, n: nat)
  {
    IsTerminated(buf, n) && n <= 10 && Base128(buf[..n]) == x
  }

  lemma ReadsIff(buf: seq<byte>, x: uint64, n: nat)
    ensures Uvarint(buf) == Value(x, n) <==> Reads(buf, x, n)
  {
    UvarintExact(buf, x, n);
  }

  lemma NothingToRead(buf: seq<byte>)
    ensures Uvarint(buf) == Bad <==> forall x: uint64, n: nat :: !Reads(buf, x, n)
  {
    if Uvarint(buf).Value? {
      ReadsIff(buf, Uvarint(buf).x, Uvarint(buf).n);
    } else {
      forall x: uint64, n: nat ensures !Reads(buf, x, n) {
        ReadsIff(buf, x, n);
      }
    }
  }

  /** `ids` are the values of consecutive varints at the start of buf, and rest is what follows them. */
  ghost predicate Lists(buf: seq<byte>, ids: seq<uint64>, rest: seq<byte>)
    decreases |ids|
  {
    if ids == [] then rest == buf
    else exists n | 0 <= n <= |buf| :: Reads(buf, ids[0], n) && Lists(buf[n..], ids[1..], rest)
  }

  lemma {:induction false} ListsIsConsumes(buf: seq<byte>, ids: seq<uint64>, rest: seq<byte>)
    ensures Lists(buf, ids, rest) <==> Consumes(buf, ids, rest)
    decreases |ids|
  {
    if ids != [] {
      if Lists(buf, ids, rest) {
        var n :| 0 <= n <= |buf| && Reads(buf, ids[0], n) && Lists(buf[n..], ids[1..], rest);
        ReadsIff(buf, ids[0], n);
        ListsIsConsumes(buf[n..], ids[1..], rest);
      }
      if Consumes(buf, ids, rest) {
        var n := Uvarint(buf).n;
        ReadsIff(buf, ids[0], n);
        ListsIsConsumes(buf[n..], ids[1..], rest);
      }
    }
  }

  /** The payload is [varint count][that many varints], bytes after them allowed. */
  ghost predicate IsBatch(payload: seq<byte>, ids: seq<uint64>)
  {
    exists k, rest | 0 <= k <= |payload| && |ids| < 0x1_0000_0000_0000_0000 ::
      Reads(payload, |ids|, k) && Lists(payload[k..], ids, rest)
  }

  /** The payload announces more ids than it lists: `ids` are followed by something that is not a varint. */
  ghost predicate IsTruncatedBatch(payload: seq<byte>, ids: seq<uint64>)
  {
    exists n: uint64, k, rest | 0 <= k <= |payload| && |ids| < n ::
      Reads(payload, n, k) && Lists(payload[k..], ids, rest) && forall x: uint64, m: nat :: !Reads(rest, x, m)
  }

  /** The payload is [varint length][name of that length][sketch]. */
  ghost predicate IsEnvelope(payload: seq<byte>, name: seq<byte>, sketch: seq<byte>)
  {
    exists n | 0 <= n <= |payload| && |name| < 0x1_0000_0000_0000_0000 ::
      Reads(payload, |name|, n) && payload[n..] == name + sketch
  }

  /** A serialised HLL sketch, possibly followed by other bytes: precision 14, then 16384 registers. */
  predicate IsSketch(b: seq<byte>)
  {
    |b| >= 16386 && b[0] == 14 && b[1] == 0
  }

  lemma BatchAccepted(place: Placement, st: Groups, c: Command, ids: seq<uint64>)
    requires c.ctype == "BATCH_ADD" && IsBatch(c.payload, ids)
    ensures Dispatch(place, st, c) == Applied(AddIds(place, st, c.group, ids), Ok)
  {
    var k, rest :| 0 <= k <= |c.payload| && Reads(c.payload, |ids|, k) && Lists(c.payload[k..], ids, rest);
    ReadsIff(c.payload, |ids|, k);
    ListsIsConsumes(c.payload[k..], ids, rest);
    MaximalPrefixUnique(c.payload[k..], |ids|, ids, rest);
  }

  lemma BatchTruncated(place: Placement, st: Groups, c: Command, ids: seq<uint64>)
    requires c.ctype == "BATCH_ADD" && IsTruncatedBatch(c.payload, ids)
    ensures Dispatch(place, st, c) == Applied(AddIds(place, st, c.group, ids), Err(ErrBadPayload))
  {
    var n: uint64, k, rest :| 0 <= k <= |c.payload| && |ids| < n && Reads(c.payload, n, k) &&
                              Lists(c.payload[k..], ids, rest) && forall x: uint64, m: nat :: !Reads(rest, x, m);
    ReadsIff(c.payload, n, k);
    ListsIsConsumes(c.payload[k..], ids, rest);
    NothingToRead(rest);
    MaximalPrefixUnique(c.payload[k..], n, ids, rest);
  }

  /** Every BATCH_ADD payload is a batch, a truncated batch, or has no count. */
  lemma BatchCases(payload: seq<byte>)
    ensures || (exists ids :: IsBatch(payload, ids))
            || (exists ids :: IsTruncatedBatch(payload, ids))
            || forall x: uint64, n: nat :: !Reads(payload, x, n)
  {
    NothingToRead(payload);
    if Uvarint(payload).Value? {
      var n, k := Uvarint(payload).x, Uvarint(payload).n;
      ReadsIff(payload, n, k);
      var rest := DecodesMaximalPrefix(payload[k..], n);
      var ids := DecodeIds(payload[k..], n).ids;
      ListsIsConsumes(payload[k..], ids, rest);
      if |ids| == n {
        assert IsBatch(payload, ids);
      } else {
        NothingToRead(rest);
        assert IsTruncatedBatch(payload, ids);
      }
    }
  }

  /** MergeBytes checks the name first, then the bytes; a failure of either changes nothing. */
  lemma MergeBytesExact(st: Groups, g: string, algo: string, b: seq<byte>)
    ensures MergeBytes(st, g, algo, b)
         == if algo != "hll" then Applied(st, Err(ErrAlgoMismatch))
            else if !IsSketch(b) then Applied(st, Err(ErrParse))
            else Applied(Join(st, map[g := b[2..16386]]), Ok)
  {
    if IsSketch(b) {
      MergeIsJoin(st, g, b[2..16386]);
    }
  }

  lemma EnvelopeHandsOver(place: Placement, st: Groups, c: Command, name: seq<byte>, sketch: seq<byte>)
    requires c.ctype == "MERGE_SKETCH" && IsEnvelope(c.payload, name, sketch)
    ensures Dispatch(place, st, c) == MergeBytes(st, c.group, BytesToString(name), sketch)
  {
    var n :| 0 <= n <= |c.payload| && Reads(c.payload, |name|, n) && c.payload[n..] == name + sketch;
    ReadsIff(c.payload, |name|, n);
    assert (name + sketch)[..|name|] == name && (name + sketch)[|name|..] == sketch;
  }

  /** So does MERGE_SKETCH with the name and the bytes of its envelope. */
  lemma EnvelopeExact(place: Placement, st: Groups, c: Command, name: seq<byte>, sketch: seq<byte>)
    requires c.ctype == "MERGE_SKETCH" && IsEnvelope(c.payload, name, sketch)
    ensures Dispatch(place, st, c)
         == if BytesToString(name) != "hll" then Applied(st, Err(ErrAlgoMismatch))
            else if !IsSketch(sketch) then Applied(st, Err(ErrParse))
            else Applied(Join(st, map[c.group := sketch[2..16386]]), Ok)
  {
    EnvelopeHandsOver(place, st, c, name, sketch);
    MergeBytesExact(st, c.group, BytesToString(name), sketch);
  }

  lemma EnvelopeCases(payload: seq<byte>)
    ensures (forall name, sketch :: !IsEnvelope(payload, name, sketch))
       <==> var v := Uvarint(payload); v == Bad || |payload| - v.n < v.x
  {
    var v := Uvarint(payload);
    if v.Value? && v.x <= |payload| - v.n {
      var buf := payload[v.n..];
      ReadsIff(payload, v.x, v.n);
      assert buf == buf[..v.x] + buf[v.x..];
      assert IsEnvelope(payload, buf[..v.x], buf[v.x..]);
    } else {
      forall name, sketch ensures !IsEnvelope(payload, name, sketch) {
        NotAnEnvelope(payload, name, sketch);
      }
    }
  }

  lemma NotAnEnvelope(payload: seq<byte>, name: seq<byte>, sketch: seq<byte>)
    ensures var v := Uvarint(payload); IsEnvelope(payload, name, sketch) ==> v.Value? && v.x <= |payload| - v.n
  {
    if IsEnvelope(payload, name, sketch) {
      var n :| 0 <= n <= |payload| && Reads(payload, |name|, n) && payload[n..] == name + sketch;
      ReadsIff(payload, |name|, n);
      assert |payload[n..]| == |name| + |sketch|;
    }
  }

  /** Which commands a node accepts; the rest it logs and skips. */
  ghost predicate Acceptable(c: Command)
  {
    || (c.ctype == "ADD" && exists id: uint64 :: Reads(c.payload, id, |c.payload|))
    || (c.ctype == "BATCH_ADD" && exists ids :: IsBatch(c.payload, ids))
    || (c.ctype == "MERGE_SKETCH" &&
          exists name, sketch :: IsEnvelope(c.payload, name, sketch) && BytesToString(name) == "hll" && IsSketch(sketch))
  }

  /** What a node rejects a command with. */
  ghost function Rejection(c: Command): Error
  {
    if c.ctype != "ADD" && c.ctype != "BATCH_ADD" && c.ctype != "MERGE_SKETCH" then ErrUnknownCommand
    else if c.ctype != "MERGE_SKETCH" || (forall name, sketch :: !IsEnvelope(c.payload, name, sketch)) then ErrBadPayload
    else if exists name, sketch :: IsEnvelope(c.payload, name, sketch) && BytesToString(name) == "hll" then ErrParse
    else ErrAlgoMismatch
  }

  /**
    Acceptance, exactly, for every command and state: known type and
    well-formed payload. A rejected command leaves the state as it was, unless
    it is a truncated batch, and reports what was wrong.
   */
  lemma DispatchAccepts(place: Placement, st: Groups, c: Command)
    ensures var d := Dispatch(place, st, c);
            && d.outcome == (if Acceptable(c) then Ok else Err(Rejection(c)))
            && (!Acceptable(c) && !(c.ctype == "BATCH_ADD" && exists ids :: IsTruncatedBatch(c.payload, ids)) ==>
                  d.groups == st)
  {
    if c.ctype == "ADD" {
      AddCases(place, st, c);
    } else if c.ctype == "BATCH_ADD" {
      BatchOutcome(place, st, c);
    } else if c.ctype == "MERGE_SKETCH" {
      MergeOutcome(place, st, c);
    }
  }

  lemma AddCases(place: Placement, st: Groups, c: Command)
    requires c.ctype == "ADD"
    ensures var d := Dispatch(place, st, c);
            if exists id: uint64 :: Reads(c.payload, id, |c.payload|) then d.outcome == Ok
            else d == Applied(st, Err(ErrBadPayload))
  {
    var v := Uvarint(c.payload);
    if v.Value? {
      ReadsIff(c.payload, v.x, v.n);
    }
    forall id: uint64 ensures Uvarint(c.payload) == Value(id, |c.payload|) <==> Reads(c.payload, id, |c.payload|) {
      ReadsIff(c.payload, id, |c.payload|);
    }
  }

  lemma BatchOutcome(place: Placement, st: Groups, c: Command)
    requires c.ctype == "BATCH_ADD"
    ensures var d := Dispatch(place, st, c);
            && (d.outcome == if exists ids :: IsBatch(c.payload, ids) then Ok else Err(ErrBadPayload))
            && ((forall ids :: !IsBatch(c.payload, ids) && !IsTruncatedBatch(c.payload, ids)) ==> d.groups == st)
  {
    BatchCases(c.payload);
    if ids :| IsBatch(c.payload, ids) {
      BatchAccepted(place, st, c, ids);
    } else if ids :| IsTruncatedBatch(c.payload, ids) {
      BatchTruncated(place, st, c, ids);
    } else {
      NothingToRead(c.payload);
    }
  }

  lemma MergeOutcome(place: Placement, st: Groups, c: Command)
    requires c.ctype == "MERGE_SKETCH"
    ensures Dispatch(place, st, c).outcome == if Acceptable(c) then Ok else Err(Rejection(c))
    ensures !Acceptable(c) ==> Dispatch(place, st, c).groups == st
  {
    EnvelopeCases(c.payload);
    if name, sketch :| IsEnvelope(c.payload, name, sketch) {
      EnvelopeExact(place, st, c, name, sketch);
      forall name', sketch' | IsEnvelope(c.payload, name', sketch') ensures name' == name && sketch' == sketch {
        EnvelopeUnique(c.payload, name, sketch, name', sketch');
      }
    }
  }

  lemma EnvelopeUnique(payload: seq<byte>, name: seq<byte>, sketch: seq<byte>, name': seq<byte>, sketch': seq<byte>)
    requires IsEnvelope(payload, name, sketch) && IsEnvelope(payload, name', sketch')
    ensures name' == name && sketch' == sketch
  {
    var n :| 0 <= n <= |payload| && Reads(payload, |name|, n) && payload[n..] == name + sketch;
    var n' :| 0 <= n' <= |payload| && Reads(payload, |name'|, n') && payload[n'..] == name' + sketch';
    ReadsIff(payload, |name|, n);
    ReadsIff(payload, |name'|, n');
    var k := |name|;
    assert (name + sketch)[..k] == name && (name + sketch)[k..] == sketch;
    assert (name' + sketch')[..k] == name' && (name' + sketch')[k..] == sketch';
  }

  /**
    A registry treats a command as the default one treats the command its
    handler is named after, and rejects a type it has no handler for.
   */
  lemma RegistryExact(handlers: Handlers, place: Placement, st: Groups, c: Command)
    ensures DispatchWith(handlers, place, st, c)
         == if c.ctype !in handlers then Applied(st, Err(ErrUnknownCommand))
            else match handlers[c.ctype]
              case HandleAdd => Dispatch(place, st, c.(ctype := "ADD"))
              case HandleBatchAdd => Dispatch(place, st, c.(ctype := "BATCH_ADD"))
              case HandleMergeSketch => Dispatch(place, st, c.(ctype := "MERGE_SKETCH"))
  {
  }
}
