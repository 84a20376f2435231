/**
 Admission of batches into a topic's store, and what any sequence of batches leaves.
 */
module Oplog {
  import opened Prelude
  import opened Dag
  import opened Membership
  import opened Validity
  import opened Store
  import opened Projection
  import opened Admission
  import Topology

  datatype Stored = Absent | Repair | Held

  /** Whether an operation is all here, in part, or not at all. */
  function StoredOpState(v: View, op: Op): Stored {
    if op.id in v.ops && op.id in v.meta then Held
    else if op.id in v.ops || op.id in v.meta then Repair
    else if ((op.actor, op.pos) in v.index && v.index[(op.actor, op.pos)] == op.id) || op.id in v.children
    then Repair
    else Absent
  }

  /** Ids are hashes: an id of the history names the operation the history holds. */
  ghost predicate Authentic(log: Log, op: Op) {
    op.id in log ==> log[op.id] == op
  }

  /** An operation counts as absent exactly when the history lacks it, whatever is damaged. */
  lemma StoredStateIsHistory(v: View, log: Log, op: Op)
    requires Represents(v, log) && Authentic(log, op)
    ensures StoredOpState(v, op).Absent? <==> op.id !in log
    ensures StoredOpState(v, op).Held? <==> op.id in v.ops && op.id in v.meta
  {
    hide StateMatches, TipsMatch, HeadsMatch, MaxGenMatches, OneGenesis, ForkFree, ValidAt, MetaMatches;
    if op.id in v.children {
      var c :| c in v.children[op.id];
      assert op.id in log[c].deps;
    }
  }

  function MissingDeps(v: View, op: Op): (missing: set<OpId>) {
    set d <- op.deps | d !in v.ops || d !in v.meta
  }

  // ---- refills ----

  /** Position checks of a refill, read from the previous operation's metadata. */
  method CheckRefillPosition(v: View, op: Op, ghost log: Log) returns (r: Result<(), Error>)
    requires Represents(v, log) && op.id in log && log[op.id] == op && op.deps <= v.meta.Keys
    ensures r.Ok?
  {
    hide IndexesMatch, StateMatches, OpsMatch, IsClock, Below, MemberAt, GenerationExact, ForkFree, OneGenesis;
    assert ValidAt(log, log[op.id]);
    if op.pos == 1 && op.prev.None? {
      return Ok(());
    }
    if op.pos < 2 || op.prev.None? || op.prev.value !in op.deps {
      return Err(ActorPrevMismatch);
    }
    var m := v.meta[op.prev.value];
    assert MetaMatches(log, m);
    if m.pos == U64_MAX || m.actor != op.actor || m.pos + 1 != op.pos {
      return Err(ActorPrevMismatch);
    }
    r := Ok(());
  }

  method CheckRefillPayload(v: View, op: Op, cached: Projections, ghost log: Log)
    returns (r: Result<(), Error>, kept: Projections)
    requires Represents(v, log) && op.id in log && log[op.id] == op && ProjectionsMatch(log, cached)
    ensures ProjectionsMatch(log, kept)
    ensures Intact(v, log, op.deps) ==> r.Ok?
  {
    hide IsState, Below, MetasMatch, OpsMatch, ProjectionsMatch, ForkFree, IndexesMatch;
    kept := cached;
    HistoryHasState(v, log, op);
    if op.payload.Genesis? {
      if op.pos != 1 || op.prev.Some? || op.deps != {} || |op.payload.eventType| > MAX_TYPE_BYTES
         || (v.state.Some? && v.state.value.genesis != op.id)
      {
        return Err(InvalidGenesis), kept;
      }
      return Ok(()), kept;
    }
    if v.state.None? {
      return Err(TopicNotFound), kept;
    }
    SameEventType(log, op, v.state.value);
    if op.payload.Event? && op.payload.typeId != v.state.value.eventType {
      return Err(EventTypeMismatch), kept;
    }
    NobodyAtNothing(log, op);
    var projected, cached' := ProjectMembership(v, op.deps, cached, log);
    kept := cached';
    if projected.Err? {
      return Err(projected.error), kept;
    }
    MemberDecided(log, op, projected.value);
    if op.author !in projected.value.members {
      return Err(NotTopicMember), kept;
    }
    r := Ok(());
  }

  lemma HistoryHasState(v: View, log: Log, op: Op)
    requires Represents(v, log) && op.id in log && log[op.id] == op
    ensures v.state.Some? && IsState(log, log.Keys, v.state.value)
    ensures op.deps <= log.Keys && ValidAt(log, op)
    ensures op.payload.Genesis? ==> v.state.value.genesis == op.id && GenesisForm(op)
    ensures !op.payload.Genesis? ==> MemberAt(log, op)
  {
    hide MetasMatch, OpsMatch, IndexesMatch, Below, MemberAt, PeersDecided, PolicyDecided;
    assert ValidAt(log, log[op.id]);
  }

  /**
   An operation of the history whose records are missing in part: its metadata comes out
   exactly as it was stored on admission.
   */
  method ValidateRepair(v: View, op: Op, cached: Projections, ghost log: Log)
    returns (r: Result<Meta, Error>, kept: Projections)
    requires Represents(v, log) && op.id in log && log[op.id] == op
    requires op.deps <= v.ops.Keys && op.deps <= v.meta.Keys && ProjectionsMatch(log, cached)
    ensures ProjectionsMatch(log, kept)
    ensures r.Ok? ==> r.value.id == op.id && MetaMatches(log, r.value)
    ensures Intact(v, log, op.deps) ==> r.Ok?
  {
    hide IsState, Below, OpsMatch, ProjectionsMatch, ForkFree, IndexesMatch, StateMatches, MemberAt, IsClock;
    kept := cached;
    HistoryHasState(v, log, op);
    assert Represents(v, log);
    if op.actor != ActorIdFor(op.author) {
      return Err(ActorAuthorMismatch), kept;
    }
    OwnPosition(v, log, op);
    if (op.actor, op.pos) in v.index && v.index[(op.actor, op.pos)] != op.id {
      return Err(ActorFork), kept;
    }
    var checked: Result<(), Error>;
    checked, kept := CheckRefillPayload(v, op, cached, log);
    if checked.Ok? {
      checked := CheckRefillPosition(v, op, log);
    }
    if checked.Ok? {
      checked := CheckGeneration(v, op, log);
    }
    if checked.Err? {
      return Err(checked.error), kept;
    }
    // Its dependencies are held, so this cannot fail.
    var m := MetaForProjected(v, op, log);
    if op.id in v.meta {
      assert MetaMatches(log, v.meta[op.id]);
      ClockUnique(log, Below(log, op.deps), v.meta[op.id].clock, m.value.clock);
      if v.meta[op.id] != m.value {
        return Err(InvalidOpId), kept;
      }
    }
    r := Ok(m.value);
  }

  lemma OwnPosition(v: View, log: Log, op: Op)
    requires Represents(v, log) && op.id in log && log[op.id] == op
    ensures (op.actor, op.pos) in v.index && v.index[(op.actor, op.pos)] == op.id
  {
  }

  // ---- one operation of a batch ----

  datatype Outcome = Skipped | Accepted | Waits(missing: set<OpId>)

  /** A refill touches records only. */
  ghost predicate OnlyRecords(v: View, v': View) {
    v' == v.(ops := v'.ops, meta := v'.meta)
  }

  /** Validates and admits an operation the history lacks. */
  method AdmitNew(v: View, op: Op, cached: Projections, ghost log: Log)
    returns (r: Result<(), Error>, v': View, kept: Projections, ghost log': Log)
    requires Represents(v, log) && op.id !in log && ProjectionsMatch(log, cached)
    requires op.deps <= log.Keys && op.deps <= v.ops.Keys && op.deps <= v.meta.Keys
    ensures Represents(v', log') && ProjectionsMatch(log', kept)
    ensures r.Err? ==> v' == v && log' == log
    ensures r.Ok? ==>
      && log' == log[op.id := op]
      && v'.ops == v.ops[op.id := op]
      && v'.meta.Keys == v.meta.Keys + {op.id}
    ensures Intact(v, log, op.deps) && Admissible(log, op) ==> r.Ok?
  {
    hide IsClock, Below, OpsMatch, MetasMatch, IndexesMatch, StateMatches, ProjectionsMatch;
    hide Admissible, ForkFree, OneGenesis, FollowsTip, Closed;
    v', log' := v, log;
    r, kept := ValidateOpProjected(v, op, cached, log);
    if r.Err? {
      return;
    }
    var m := MetaForProjected(v, op, log);
    GoodGrows(log, op);
    NewMetaMatches(log, op, m.value);
    AdmitKeeps(v, log, op, m.value);
    ProjectionsFrame(log, log[op.id := op], kept);
    v', log' := Admit(v, op, m.value), log[op.id := op];
  }

  /** The store holds the history, and every cached state belongs to it. */
  ghost predicate Sound(v: View, log: Log, cached: Projections) {
    Represents(v, log) && ProjectionsMatch(log, cached)
  }

  /** An operation the history holds, or may take next. */
  ghost predicate Acceptable(log: Log, op: Op) {
    Closed(log) && (op.id in log || (op.deps <= log.Keys && Admissible(log, op)))
  }

  predicate Joins(r: Result<Outcome, Error>) {
    r.Ok? && !r.value.Waits?
  }

  /** What one operation may change: nothing, the records of a refill, or the history by itself. */
  ghost predicate Stepped(v: View, log: Log, op: Op, r: Result<Outcome, Error>, v': View, log': Log) {
    && (r != Ok(Accepted) ==> v' == v && log' == log)
    && (r == Ok(Accepted) ==>
          && log' == (if op.id in log then log else log[op.id := op])
          && (op.id in log ==> OnlyRecords(v, v'))
          && MissingDeps(v, op) == {}
          && v'.ops.Keys == v.ops.Keys + {op.id}
          && v'.meta.Keys == v.meta.Keys + {op.id})
    && (r == Ok(Skipped) ==> op.id in log && op.id in v.ops && op.id in v.meta)
    && (r.Ok? && r.value.Waits? ==> r.value.missing == MissingDeps(v, op) && r.value.missing != {})
  }

  /** An operation waits for exactly its dependencies that are not held whole; a new one may be refused that. */
  ghost predicate WaitsOr(v: View, log: Log, op: Op, refused: bool, r: Result<Outcome, Error>) {
    && (op.id !in log && MissingDeps(v, op) != {} ==>
          if refused then r == Err(PendingRefused) else r.Ok? && r.value.Waits?)
    && (r.Ok? && r.value.Waits? ==> forall d :: d in r.value.missing <==> d in op.deps && !(d in v.ops && d in v.meta))
  }

  /**
   One operation of a batch: skipped when held, refilled when damaged, kept waiting
   for missing dependencies, otherwise admitted if it is valid at its place.
   */
  method AdmitOne(v: View, op: Op, cached: Projections, refuses: Op -> bool, ghost log: Log)
    returns (r: Result<Outcome, Error>, v': View, kept: Projections, ghost log': Log)
    requires Sound(v, log, cached) && Authentic(log, op)
    ensures Sound(v', log', kept)
    ensures Stepped(v, log, op, r, v', log')
    ensures Acceptable(log, op) && Intact(v, log, op.deps) ==> Joins(r)
    ensures WaitsOr(v, log, op, refuses(op), r)
  {
    hide Below, MetasMatch, OpsMatch, IndexesMatch, StateMatches, ProjectionsMatch, Admissible;
    hide ForkFree, OneGenesis, Closed, MetaMatches;
    v', kept, log' := v, cached, log;
    StoredStateIsHistory(v, log, op);
    var stored := StoredOpState(v, op);
    if stored.Held? {
      CompleteHolds(v, log, op.id);
      if v.state.None? {
        return Err(AdmissionConflict), v, cached, log;
      }
      return Ok(Skipped), v, cached, log;
    }
    var missing := MissingDeps(v, op);
    if Acceptable(log, op) {
      IntactMissesNothing(v, log, op);
    }
    if missing != {} {
      if stored.Absent? && refuses(op) {
        return Err(PendingRefused), v, cached, log;
      }
      return Ok(Waits(missing)), v, cached, log;
    }
    NothingMissing(v, log, op);
    if stored.Repair? {
      var m, kept' := ValidateRepair(v, op, cached, log);
      kept := kept';
      if m.Err? {
        return Err(m.error), v, kept, log;
      }
      RefillKeeps(v, log, op, m.value);
      return Ok(Accepted), Refill(v, op, m.value), kept, log;
    }
    var admitted: Result<(), Error>;
    admitted, v', kept, log' := AdmitNew(v, op, cached, log);
    r := if admitted.Ok? then Ok(Accepted) else Err(admitted.error);
  }

  lemma IntactMissesNothing(v: View, log: Log, op: Op)
    requires Acceptable(log, op) && Authentic(log, op)
    ensures Intact(v, log, op.deps) ==> MissingDeps(v, op) == {}
  {
    hide Admissible;
  }

  lemma CompleteHolds(v: View, log: Log, id: OpId)
    requires Represents(v, log) && id in v.ops
    ensures id in log && v.state.Some?
  {
  }

  lemma NothingMissing(v: View, log: Log, op: Op)
    requires OpsMatch(v.ops, log) && MissingDeps(v, op) == {}
    ensures op.deps <= log.Keys && op.deps <= v.ops.Keys && op.deps <= v.meta.Keys
  {
    forall d | d in op.deps
      ensures d in v.ops && d in v.meta
    {
      assert d !in MissingDeps(v, op);
    }
  }

  // ---- batches ----

  /** `world` is the history `log` with the operations of a batch. */
  ghost predicate IsUnion(world: Log, log: Log, ops: seq<Op>) {
    && Extends(log, world)
    && (forall op <- ops :: op.id in world && world[op.id] == op)
    && (forall id <- world :: id in log || id in Topology.Emitted(ops))
  }

  ghost predicate AuthenticBatch(log: Log, ops: seq<Op>) {
    && (forall op <- ops :: Authentic(log, op))
    && (forall a <- ops, b <- ops :: a.id == b.id ==> a == b)
  }

  /** The history with everything a batch names. */
  ghost function Joined(log: Log, ops: seq<Op>): (world: Log) {
    map id | id in log.Keys + Topology.Emitted(ops) :: if id in log then log[id] else Named(ops, id)
  }

  ghost function Named(ops: seq<Op>, id: OpId): (op: Op)
    requires id in Topology.Emitted(ops)
    ensures op in ops && op.id == id
  {
    var op :| op in ops && op.id == id;
    op
  }

  lemma JoinedIsUnion(log: Log, ops: seq<Op>)
    requires AuthenticBatch(log, ops)
    ensures IsUnion(Joined(log, ops), log, ops)
  {
  }

  /** What a committed batch leaves: the history grew by operations of the batch only. */
  ghost predicate Grew(base: Log, ops: seq<Op>, log: Log, accepted: set<OpId>) {
    && Extends(base, log)
    && log.Keys == base.Keys + accepted
    && (forall id <- accepted :: id in Topology.Emitted(ops))
    && (forall op <- ops :: op.id in log ==> log[op.id] == op)
    && (forall op <- ops :: op.deps == {} ==> op.id in log)
  }

  /** Generations fall along dependencies, so a good history has no cycle. */
  lemma {:induction false} NoKnot(world: Log, batch: Topology.Batch, knot: set<OpId>, x: OpId)
    requires Closed(world) && Extends(batch, world) && Topology.Knot(batch, knot) && x in knot
    ensures false
    decreases world[x].gen
  {
    assert Topology.Tied(batch, knot, x);
    var d :| d in knot && d in batch[x].deps;
    assert world[x] == batch[x];
    NoKnot(world, batch, knot, d);
  }

  lemma GoodIsAcyclic(world: Log, batch: Topology.Batch)
    requires Closed(world) && Extends(batch, world)
    ensures !Topology.Cyclic(batch)
  {
    if Topology.Cyclic(batch) {
      var knot :| Topology.Knot(batch, knot);
      Topology.KnotWithin(batch, knot);
      var x :| x in knot;
      NoKnot(world, batch, knot, x);
    }
  }

  /** Progress through an ordered batch. */
  ghost predicate BatchSoFar(base: Log, out: seq<Op>, n: nat, log: Log, v: View, accepted: set<OpId>,
                             waiting: set<OpId>)
    requires n <= |out|
  {
    && Extends(base, log)
    && log.Keys == base.Keys + accepted
    && accepted <= Topology.Emitted(out[..n])
    && (forall i :: 0 <= i < n ==> out[i].id in waiting || (out[i].id in v.ops && out[i].id in v.meta))
    && (forall i :: 0 <= i < |out| && out[i].id in log ==> log[out[i].id] == out[i])
    && (forall i :: 0 <= i < n && out[i].deps == {} ==> out[i].id in log)
  }

  lemma BatchStep(base: Log, out: seq<Op>, n: nat, log: Log, v: View, accepted: set<OpId>, waiting: set<OpId>,
                  r: Result<Outcome, Error>, v': View, log': Log)
    requires n < |out| && BatchSoFar(base, out, n, log, v, accepted, waiting)
    requires forall i :: 0 <= i < |out| && out[i].id == out[n].id ==> out[i] == out[n]
    requires r.Ok? && Stepped(v, log, out[n], r, v', log')
    ensures BatchSoFar(base, out, n + 1, log', v',
              if r.value.Accepted? then accepted + {out[n].id} else accepted,
              if r.value.Waits? then waiting + {out[n].id} else waiting)
  {
    hide Topology.Emitted, OnlyRecords;
    assert out[..n + 1] == out[..n] + [out[n]];
    Topology.EmittedAppend(out[..n], out[n]);
  }

  predicate Present(v: View, id: OpId) {
    id in v.ops && id in v.meta
  }

  ghost predicate WaitsIn(pending: seq<(Op, set<OpId>)>, op: Op) {
    exists p :: p in pending && p.0 == op
  }

  /** What was added is present with its dependencies, and nothing stored was lost. */
  ghost predicate AddsWhole(v: View, log: Log, v': View, log': Log) {
    && v.ops.Keys <= v'.ops.Keys && v.meta.Keys <= v'.meta.Keys && Extends(log, log')
    && (forall x <- log' :: x !in log ==> Present(v', x))
    && (forall x <- log' :: x !in log || (x in v'.meta && x !in v.meta) ==> MissingDeps(v', log'[x]) == {})
  }

  lemma AddsNothing(v: View, log: Log)
    ensures AddsWhole(v, log, v, log)
  {
  }

  lemma AddsStep(v0: View, log0: Log, v: View, log: Log, op: Op, r: Result<Outcome, Error>, v': View, log': Log)
    requires AddsWhole(v0, log0, v, log) && r.Ok? && Stepped(v, log, op, r, v', log') && Authentic(log, op)
    ensures AddsWhole(v0, log0, v', log')
  {
    hide OnlyRecords;
    forall x | x in log' && (x !in log0 || (x in v'.meta && x !in v0.meta))
      ensures MissingDeps(v', log'[x]) == {}
    {
      AddedHere(v0, log0, v, log, op, r, v', log', x);
    }
  }

  lemma AddedHere(v0: View, log0: Log, v: View, log: Log, op: Op, r: Result<Outcome, Error>, v': View, log': Log,
                  x: OpId)
    requires AddsWhole(v0, log0, v, log) && r.Ok? && Stepped(v, log, op, r, v', log') && Authentic(log, op)
    requires x in log' && (x !in log0 || (x in v'.meta && x !in v0.meta))
    ensures MissingDeps(v', log'[x]) == {}
  {
    hide OnlyRecords;
    if x in log && (x !in log0 || (x in v.meta && x !in v0.meta)) {
      assert MissingDeps(v, log[x]) == {};
    } else {
      assert x == op.id && log'[x] == op;
    }
    assert MissingDeps(v', log'[x]) <= MissingDeps(v, log'[x]);
  }

  /** Every operation is held or waits, and what waits waits for exactly its missing dependencies. */
  ghost predicate Settles(ops: seq<Op>, v: View, pending: seq<(Op, set<OpId>)>) {
    && (forall op <- ops :: Present(v, op.id) || WaitsIn(pending, op))
    && (forall p <- pending :: p.0 in ops && p.1 != {} && p.1 == MissingDeps(v, p.0))
  }

  lemma SettlesStep(out: seq<Op>, n: nat, v: View, log: Log, pending: seq<(Op, set<OpId>)>,
                    r: Result<Outcome, Error>, v': View, log': Log)
    requires n < |out| && Settles(out[..n], v, pending) && r.Ok? && Stepped(v, log, out[n], r, v', log')
    requires forall i :: 0 <= i < n ==> out[n].id !in out[i].deps
    ensures Settles(out[..n + 1], v', if r.value.Waits? then pending + [(out[n], r.value.missing)] else pending)
  {
    hide OnlyRecords;
    var pending' := if r.value.Waits? then pending + [(out[n], r.value.missing)] else pending;
    assert out[..n + 1] == out[..n] + [out[n]];
    forall p | p in pending
      ensures p.1 == MissingDeps(v', p.0)
    {
      assert out[n].id !in p.0.deps;
    }
    forall op | op in out[..n + 1]
      ensures Present(v', op.id) || WaitsIn(pending', op)
    {
      if op != out[n] && WaitsIn(pending, op) {
        var p :| p in pending && p.0 == op;
        assert p in pending';
      } else if op == out[n] && r.value.Waits? {
        assert (op, r.value.missing) in pending';
      }
    }
  }

  /** Nothing emitted later is a dependency of what was emitted before. */
  lemma LaterIsNoDep(batch: Topology.Batch, out: seq<Op>, n: nat)
    requires Topology.Ordered(batch, out) && n < |out|
    ensures forall i :: 0 <= i < n ==> out[n].id !in out[i].deps
  {
    hide Topology.Ordered, Topology.Causal;
    Topology.OrderedIsCausal(batch, out);
    Topology.CausalMeans(batch, out);
    forall i | 0 <= i < n
      ensures Topology.Emitted(out[..i]) <= Topology.Emitted(out[..n])
    {
      assert out[..i] == out[..n][..i];
    }
  }

  lemma SettlesAll(ops: seq<Op>, batch: Topology.Batch, out: seq<Op>, v: View, pending: seq<(Op, set<OpId>)>, base: Log)
    requires Settles(out, v, pending) && AuthenticBatch(base, ops)
    requires Topology.Emitted(out) == Topology.Emitted(ops) == batch.Keys
    requires forall i :: 0 <= i < |out| ==> out[i].id in batch && batch[out[i].id] == out[i]
    requires forall id <- batch :: batch[id] in ops
    ensures Settles(ops, v, pending)
  {
    hide WaitsIn, MissingDeps;
    forall op | op in ops
      ensures op in out
    {
      assert op.id in Topology.Emitted(ops);
      EmittedAt(out, op.id);
    }
  }

  /** On an undamaged store offered a good history, the next operation of the order is acceptable. */
  lemma NextAcceptable(base: Log, world: Log, batch: Topology.Batch, out: seq<Op>, n: nat, log: Log)
    requires Closed(log) && Good(world) && Extends(log, world) && Extends(base, log)
    requires Extends(batch, world) && forall id <- world :: id in base || id in batch
    requires Topology.Ordered(batch, out) && n < |out|
    requires forall i :: 0 <= i < n ==> out[i].id in log
    ensures Acceptable(log, out[n])
  {
    hide Good, Topology.Ordered, Topology.Emitted;
    var op := out[n];
    Topology.OrderedIsCausal(batch, out);
    Topology.CausalMeans(batch, out);
    assert world[op.id] == op;
    if op.id !in log {
      WorldClosed(world, op.id);
      forall d | d in op.deps
        ensures d in log
      {
        if d !in base {
          assert d in Topology.Emitted(out[..n]);
          EmittedAt(out[..n], d);
        }
      }
      GoodPart(log, world, op);
    }
  }

  lemma WorldClosed(world: Log, id: OpId)
    requires Good(world) && id in world
    ensures world[id].deps <= world.Keys
  {
  }

  lemma EmittedAt(out: seq<Op>, id: OpId)
    requires id in Topology.Emitted(out)
    ensures exists i :: 0 <= i < |out| && out[i].id == id
  {
  }

  lemma OrderAuthentic(log: Log, ops: seq<Op>, batch: Topology.Batch, out: seq<Op>)
    requires AuthenticBatch(log, ops) && Topology.Ordered(batch, out)
    requires forall id <- batch :: batch[id] in ops
    ensures forall i :: 0 <= i < |out| ==> out[i].id in batch && batch[out[i].id] == out[i] && Authentic(log, out[i])
  {
    Topology.OrderedIsCausal(batch, out);
    Topology.CausalMeans(batch, out);
  }

  lemma FreshSound()
    ensures Sound(EmptyView(), map[], map[])
  {
    EmptyRepresents();
  }

  lemma SoundHolds(v: View, log: Log, cached: Projections)
    requires Sound(v, log, cached)
    ensures Represents(v, log) && OpsMatch(v.ops, log)
  {
  }

  lemma NothingEmitted()
    ensures Topology.Emitted([]) == {}
  {
  }

  lemma FillsNothing(v: View, out: seq<Op>)
    ensures Fills(v, v, Topology.Emitted(out[..0]))
  {
  }

  lemma SoundClosed(v: View, log: Log, cached: Projections)
    requires Sound(v, log, cached)
    ensures Good(log) && Closed(log) && Represents(v, log) && ProjectionsMatch(log, cached)
  {
  }

  lemma SoundSubset(v: View, log: Log, cached: Projections, fewer: Projections)
    requires Sound(v, log, cached)
    requires forall id <- fewer :: id in cached && fewer[id] == cached[id]
    ensures Sound(v, log, fewer)
  {
  }

  lemma SoundTogether(base: Log, v: View, log: Log, cached: Projections,
                      v': View, log': Log, more: Projections, both: Projections)
    requires Sound(v, log, cached) && Sound(v', log', more) && Extends(base, log')
    requires base == log || cached == map[]
    requires forall id <- both ::
      (id in cached && both[id] == cached[id]) || (id in more && both[id] == more[id])
    ensures Sound(v', log', both)
  {
    hide Represents, StateAtOp, Closed;
    SoundClosed(v, log, cached);
    SoundClosed(v', log', more);
    if base == log {
      ProjectionsFrame(log, log', cached);
    }
  }

  lemma NothingSettled(out: seq<Op>, v: View)
    ensures Settles(out[..0], v, [])
  {
  }

  lemma BatchStart(base: Log, out: seq<Op>, v: View)
    requires forall i :: 0 <= i < |out| && out[i].id in base ==> base[out[i].id] == out[i]
    ensures BatchSoFar(base, out, 0, base, v, {}, {})
  {
  }

  lemma OfferedBatch(world: Log, base: Log, ops: seq<Op>, batch: Topology.Batch)
    requires Good(world) && IsUnion(world, base, ops)
    requires Topology.Named(batch) && batch.Keys == Topology.Emitted(ops) && forall id <- batch :: batch[id] in ops
    ensures Extends(batch, world) && !Topology.Cyclic(batch)
    ensures forall id <- world :: id in base || id in batch
    ensures Extends(base, world)
  {
    hide Good;
    forall id | id in batch
      ensures id in world && world[id] == batch[id]
    {
      assert batch[id] in ops;
    }
    assert Closed(world) by { GoodClosed(world); }
    GoodIsAcyclic(world, batch);
  }

  lemma SoFarHeld(base: Log, out: seq<Op>, n: nat, log: Log, v: View, accepted: set<OpId>)
    requires n <= |out| && BatchSoFar(base, out, n, log, v, accepted, {}) && OpsMatch(v.ops, log)
    ensures Extends(base, log) && forall i :: 0 <= i < n ==> out[i].id in log
  {
  }

  lemma SoFarAuthentic(base: Log, out: seq<Op>, n: nat, log: Log, v: View, accepted: set<OpId>, waiting: set<OpId>)
    requires n < |out| && BatchSoFar(base, out, n, log, v, accepted, waiting)
    ensures Authentic(log, out[n])
  {
  }

  lemma StepStaysOffered(world: Log, log: Log, v: View, op: Op, r: Result<Outcome, Error>, v': View, log': Log)
    requires Extends(log, world) && op.id in world && world[op.id] == op
    requires Stepped(v, log, op, r, v', log')
    ensures Extends(log', world)
  {
  }

  /** What the history holds and the store has lost is among `ids`. */
  ghost predicate Mends(v: View, log: Log, ids: set<OpId>) {
    forall x <- log :: Present(v, x) || x in ids
  }

  lemma EmptyIsComplete()
    ensures Complete(EmptyView(), map[])
  {
  }

  lemma CompleteMends(v: View, log: Log, ids: set<OpId>)
    requires Complete(v, log)
    ensures Mends(v, log, ids)
  {
  }

  lemma MendedIsComplete(v: View, log: Log)
    requires Represents(v, log) && Mends(v, log, {})
    ensures Complete(v, log)
  {
    hide Good, IndexesMatch, StateMatches, MetaMatches;
  }

  lemma MendsStep(out: seq<Op>, n: nat, v: View, log: Log, r: Result<Outcome, Error>, v': View, log': Log)
    requires n < |out| && Mends(v, log, Topology.Emitted(out[n..])) && Stepped(v, log, out[n], r, v', log')
    requires r.Ok? && (r.value.Waits? ==> out[n].id !in log)
    ensures Mends(v', log', Topology.Emitted(out[n + 1..]))
  {
    assert out[n..] == [out[n]] + out[n + 1..];
  }

  /** Batches come by generation, so all that an operation stands on is mended before its turn. */
  lemma MendedBelow(world: Log, batch: Topology.Batch, out: seq<Op>, n: nat, v: View, log: Log)
    requires Closed(log) && Closed(world) && Extends(log, world) && Extends(batch, world)
    requires Topology.Ordered(batch, out) && n < |out| && out[n].id in world && world[out[n].id] == out[n]
    requires Mends(v, log, Topology.Emitted(out[n..]))
    ensures Intact(v, log, out[n].deps)
  {
    hide Topology.Ordered, Topology.Emitted;
    var op := out[n];
    forall x | x in Below(log, op.deps)
      ensures Present(v, x)
    {
      assert log[x].gen < op.gen by { BelowIsLower(log, world, op, x); }
      if x in Topology.Emitted(out[n..]) {
        var i := EmittedIndex(out[n..], x);
        if i > 0 {
          Topology.LaterIsHigher(batch, out, n, n + i);
        }
        InBatch(batch, out, n + i);
      }
    }
  }

  lemma InBatch(batch: Topology.Batch, out: seq<Op>, k: nat)
    requires Topology.Ordered(batch, out) && k < |out|
    ensures out[k].id in batch && batch[out[k].id] == out[k]
  {
    hide Topology.Ordered;
    Topology.OrderedNext(batch, out, k);
  }

  lemma EmittedIndex(out: seq<Op>, id: OpId) returns (i: nat)
    requires id in Topology.Emitted(out)
    ensures i < |out| && out[i].id == id
  {
    i :| 0 <= i < |out| && out[i].id == id;
  }

  lemma BelowIsLower(log: Log, world: Log, op: Op, x: OpId)
    requires Closed(log) && Closed(world) && Extends(log, world)
    requires op.id in world && world[op.id] == op && x in Below(log, op.deps)
    ensures log[x].gen < op.gen
  {
    if x !in op.deps {
      var d :| d in op.deps && d in log && Ancestor(log, x, d);
      AncestorIsLower(log, x, d);
    }
  }

  /** The store gained records of these operations only. */
  ghost predicate Fills(v: View, v': View, ids: set<OpId>) {
    v'.ops.Keys <= v.ops.Keys + ids && v'.meta.Keys <= v.meta.Keys + ids
  }

  lemma FillsStep(v0: View, out: seq<Op>, n: nat, v: View, log: Log, r: Result<Outcome, Error>, v': View, log': Log)
    requires n < |out| && Fills(v0, v, Topology.Emitted(out[..n])) && Stepped(v, log, out[n], r, v', log')
    ensures Fills(v0, v', Topology.Emitted(out[..n + 1]))
  {
    assert out[..n + 1] == out[..n] + [out[n]];
    Topology.EmittedAppend(out[..n], out[n]);
  }

  /** A store that ends undamaged had only damage the batch brings. */
  lemma OnlyMended(v: View, log: Log, v': View, log': Log, ids: set<OpId>)
    requires Fills(v, v', ids) && Extends(log, log') && Complete(v', log')
    ensures Mends(v, log, ids)
  {
  }

  lemma StepStaysComplete(log: Log, v: View, op: Op, r: Result<Outcome, Error>, v': View, log': Log)
    requires Stepped(v, log, op, r, v', log')
    ensures Complete(v, log) ==> Complete(v', log')
  {
  }

  lemma BatchGrew(base: Log, ops: seq<Op>, batch: Topology.Batch, out: seq<Op>,
                  log: Log, v: View, accepted: set<OpId>, waiting: set<OpId>)
    requires BatchSoFar(base, out, |out|, log, v, accepted, waiting)
    requires Topology.Emitted(out) == batch.Keys == Topology.Emitted(ops)
    requires AuthenticBatch(base, ops)
    requires forall i :: 0 <= i < |out| ==> out[i].id in batch && batch[out[i].id] == out[i]
    requires forall id <- batch :: batch[id] in ops
    ensures Grew(base, ops, log, accepted)
  {
    assert out[..|out|] == out;
    forall op | op in ops
      ensures op.id in log ==> log[op.id] == op
      ensures op.deps == {} ==> op.id in log
    {
      assert op.id in Topology.Emitted(ops);
      EmittedAt(out, op.id);
      var i :| 0 <= i < |out| && out[i].id == op.id;
      assert batch[op.id] in ops && batch[op.id] == out[i];
    }
  }

  lemma BatchWhole(world: Log, base: Log, ops: seq<Op>, batch: Topology.Batch, out: seq<Op>,
                   log: Log, v: View, accepted: set<OpId>)
    requires BatchSoFar(base, out, |out|, log, v, accepted, {}) && OpsMatch(v.ops, log)
    requires Topology.Emitted(out) == batch.Keys && Extends(log, world)
    requires forall id <- world :: id in base || id in batch
    ensures log == world
  {
  }

  /** The batch extends an undamaged store's history to the good history `world`. */
  ghost predicate Offered(v: View, base: Log, ops: seq<Op>, world: Log) {
    Mends(v, base, Topology.Emitted(ops)) && IsUnion(world, base, ops) && Good(world)
  }

  /**
   Validates an ordered batch over a view, in one pass over its operations, and builds
   the view that would be committed.
   */
  /** Every operation is of a good history that extends this one, and none is refused a place to wait. */
  ghost predicate Flows(v: View, base: Log, ops: seq<Op>, world: Log, refuses: Op -> bool) {
    && Mends(v, base, Topology.Emitted(ops)) && Good(world) && Extends(base, world)
    && (forall op <- ops :: op.id in world && world[op.id] == op && !refuses(op))
  }

  lemma FlowsBatch(world: Log, ops: seq<Op>, batch: Topology.Batch)
    requires Closed(world) && forall op <- ops :: op.id in world && world[op.id] == op
    requires Topology.Named(batch) && batch.Keys == Topology.Emitted(ops) && forall id <- batch :: batch[id] in ops
    ensures Extends(batch, world) && !Topology.Cyclic(batch)
  {
    hide Topology.Cyclic;
    forall id | id in batch
      ensures id in world && world[id] == batch[id]
    {
      assert batch[id] in ops;
    }
    GoodIsAcyclic(world, batch);
  }

  /** What is held, or lacks nothing it depends on, is acceptable. */
  lemma FlowsNext(world: Log, v: View, log: Log, op: Op)
    requires Good(world) && Extends(log, world) && op.id in world && world[op.id] == op
    requires Closed(log) && OpsMatch(v.ops, log) && (op.id in log || MissingDeps(v, op) == {})
    ensures Acceptable(log, op)
  {
    hide Good, Admissible;
    if op.id !in log {
      NothingMissing(v, log, op);
      GoodPart(log, world, op);
    }
  }

  /** What waits waits for exactly those of its dependencies of which record or metadata is not stored. */
  ghost predicate WaitsExactly(v: View, pending: seq<(Op, set<OpId>)>) {
    forall p <- pending, d :: d in p.1 <==> d in p.0.deps && !(d in v.ops && d in v.meta)
  }

  /** An operation of the batch is in the history exactly when all it depends on is. */
  ghost predicate Connected(ops: seq<Op>, log: Log) {
    forall op <- ops :: op.id in log <==> op.deps <= log.Keys
  }

  /** A batch taken by an undamaged store leaves out exactly what depends on something absent. */
  lemma FlowsConnected(v: View, log: Log, ops: seq<Op>, pending: seq<(Op, set<OpId>)>)
    requires Represents(v, log) && Complete(v, log) && Settles(ops, v, pending)
    requires forall op <- ops :: op.id in log ==> log[op.id] == op
    ensures Connected(ops, log)
  {
    hide MetasMatch, IndexesMatch, StateMatches, ForkFree, OneGenesis, ValidAt;
    forall op | op in ops
      ensures op.id in log <==> op.deps <= log.Keys
    {
      if op.id !in log {
        var p :| p in pending && p.0 == op;
        var d :| d in p.1;
        assert d in MissingDeps(v, op);
      }
    }
  }

  method BuildBatch(start: View, cached: Projections, out: seq<Op>, refuses: Op -> bool,
                    ghost base: Log, ghost batch: Topology.Batch, ghost ops: seq<Op>, ghost world: Log)
    returns (r: Result<set<OpId>, Error>, v: View, projections: Projections,
             pending: seq<(Op, set<OpId>)>, ghost cur: Log)
    requires Sound(start, base, cached) && AuthenticBatch(base, ops)
    requires Topology.Named(batch) && batch.Keys == Topology.Emitted(ops) && forall id <- batch :: batch[id] in ops
    requires Topology.Ordered(batch, out) && Topology.Emitted(out) == batch.Keys
    ensures r.Ok? ==> Sound(v, cur, projections) && Grew(base, ops, cur, r.value)
    ensures r.Ok? && Complete(start, base) ==> Complete(v, cur)
    ensures r.Ok? ==> Settles(ops, v, pending) && AddsWhole(start, base, v, cur)
    ensures r.Ok? ==> Fills(start, v, Topology.Emitted(ops))
    ensures Offered(start, base, ops, world) ==> r.Ok? && cur == world && Complete(v, cur)
    ensures Flows(start, base, ops, world, refuses) ==> r.Ok? && Complete(v, cur) && Extends(cur, world)
  {
    hide Represents, ProjectionsMatch, Good, Stepped, BatchSoFar, AuthenticBatch, Topology.Ordered, Acceptable;
    hide IsUnion, Sound, Topology.Emitted, Grew, Settles, AddsWhole, Fills, Mends, Complete, MissingDeps;
    ghost var offered := Offered(start, base, ops, world);
    ghost var taken := offered || Flows(start, base, ops, world, refuses);
    if taken {
      GoodClosed(world);
    }
    if offered {
      OfferedBatch(world, base, ops, batch);
    } else if taken {
      FlowsBatch(world, ops, batch);
    }
    assert out[0..] == out && out[|out|..] == [];
    FillsNothing(start, out);
    OrderAuthentic(base, ops, batch, out);
    v, projections, cur, pending := start, cached, base, [];
    var accepted: set<OpId> := {};
    ghost var waiting: set<OpId> := {};
    assert BatchSoFar(base, out, 0, cur, v, accepted, waiting) by { BatchStart(base, out, v); }
    assert Settles(out[..0], v, pending) by { NothingSettled(out, v); }
    AddsNothing(start, base);
    for n := 0 to |out|
      invariant Sound(v, cur, projections)
      invariant BatchSoFar(base, out, n, cur, v, accepted, waiting)
      invariant Complete(start, base) ==> Complete(v, cur)
      invariant Settles(out[..n], v, pending) && AddsWhole(start, base, v, cur)
      invariant Fills(start, v, Topology.Emitted(out[..n]))
      invariant taken ==> Mends(v, cur, Topology.Emitted(out[n..])) && Extends(cur, world)
      invariant offered ==> waiting == {}
    {
      var op := out[n];
      if taken {
        SoundHolds(v, cur, projections);
        SoundClosed(v, cur, projections);
        InBatch(batch, out, n);
        MendedBelow(world, batch, out, n, v, cur);
        if offered {
          SoFarHeld(base, out, n, cur, v, accepted);
          NextAcceptable(base, world, batch, out, n, cur);
        } else {
          assert batch[op.id] in ops;
          if op.id in cur || MissingDeps(v, op) == {} {
            FlowsNext(world, v, cur, op);
          }
        }
      }
      SoFarAuthentic(base, out, n, cur, v, accepted, waiting);
      var step, v', projections', cur' := AdmitOne(v, op, projections, refuses, cur);
      if step.Err? {
        return Err(step.error), v, projections, [], cur;
      }
      BatchStep(base, out, n, cur, v, accepted, waiting, step, v', cur');
      StepStaysComplete(cur, v, op, step, v', cur');
      LaterIsNoDep(batch, out, n);
      SettlesStep(out, n, v, cur, pending, step, v', cur');
      AddsStep(start, base, v, cur, op, step, v', cur');
      if taken {
        StepStaysOffered(world, cur, v, op, step, v', cur');
        MendsStep(out, n, v, cur, step, v', cur');
      }
      FillsStep(start, out, n, v, cur, step, v', cur');
      match step.value {
        case Skipped =>
        case Accepted => accepted := accepted + {op.id};
        case Waits(missing) =>
          pending := pending + [(op, missing)];
          waiting := waiting + {op.id};
      }
      v, projections, cur := v', projections', cur';
    }
    BatchGrew(base, ops, batch, out, cur, v, accepted, waiting);
    assert out[..|out|] == out;
    SettlesAll(ops, batch, out, v, pending, base);
    if taken {
      SoundHolds(v, cur, projections);
      NothingEmitted();
      MendedIsComplete(v, cur);
    }
    if offered {
      BatchWhole(world, base, ops, batch, out, cur, v, accepted);
    }
    r := Ok(accepted);
  }

  /** A node's store of one topic, with the membership states it caches. */
  class Oplog {
    var view: View
    var cache: Projections
    ghost var log: Log

    ghost predicate Valid()
      reads this
    {
      Sound(view, log, cache)
    }

    constructor ()
      ensures Valid() && log == map[] && view == EmptyView()
    {
      hide Sound, EmptyView;
      view, cache, log := EmptyView(), map[], map[];
      FreshSound();
    }

    /**
     Admits a batch to the history, or to an empty one on `reset`. A refused batch changes
     nothing. A batch that extends the history to a good one is taken whole by every store
     of which it brings what is damaged, and the store is then undamaged.
     */
    method AdmitBatch(ops: seq<Op>, reset: bool, refuses: Op -> bool, ghost world: Log)
      returns (r: Result<set<OpId>, Error>, pending: seq<(Op, set<OpId>)>)
      requires Valid() && AuthenticBatch(log, ops)
      modifies this
      ensures Valid()
      ensures r.Err? ==> view == old(view) && log == old(log)
      ensures r.Ok? ==> Grew(if reset then map[] else old(log), ops, log, r.value)
      ensures r.Ok? && (reset || Complete(old(view), old(log))) ==> Complete(view, log)
      ensures r.Ok? ==> Settles(ops, view, pending)
      ensures r.Ok? ==>
        AddsWhole(if reset then EmptyView() else old(view), if reset then map[] else old(log), view, log)
      ensures r.Ok? ==> WaitsExactly(view, pending)
      ensures r.Ok? ==> Fills(if reset then EmptyView() else old(view), view, Topology.Emitted(ops))
      ensures !reset && Offered(old(view), old(log), ops, world) ==> r.Ok? && log == world && Complete(view, log)
      ensures !reset && IsUnion(world, old(log), ops) && Good(world) ==>
        (r.Ok? && Complete(view, log) <==> Mends(old(view), old(log), Topology.Emitted(ops)))
      ensures !reset && Flows(old(view), old(log), ops, world, refuses) ==>
        r.Ok? && Complete(view, log) && Extends(log, world) && Connected(ops, log)
      ensures reset && Offered(EmptyView(), map[], ops, world) ==> r.Ok? && log == world && Complete(view, log)
    {
      hide Topology.Ordered, Represents, ProjectionsMatch, Grew, Topology.Emitted;
      hide Topology.BatchOf, Settles, AddsWhole, Fills, Mends, Complete, Good, IsUnion, EmptyView, Sound, Flows;
      hide WaitsExactly, Connected, AuthenticBatch, Extends, Topology.Cyclic, Topology.Named, Joined;
      if reset {
        cache := map[];
        SoundSubset(view, log, old(cache), cache);
        FreshSound();
        EmptyIsComplete();
      }
      ghost var base := if reset then map[] else log;
      AuthenticBase(log, base, ops);
      var ordered := Topology.TopologicalOps(ops);
      ghost var batch := Topology.BatchOf(ops);
      var start := if reset then EmptyView() else view;
      if ordered.None? {
        assert !Offered(start, base, ops, world) by { CyclicNotOffered(start, base, ops, world, batch); }
        assert !Flows(start, base, ops, world, refuses) by {
          CyclicCannotFlow(start, base, ops, world, refuses, batch);
        }
        return Err(CyclicBatch), [];
      }
      var known := map id | id in cache && start.state.Some? && cache[id].genesis == start.state.value.genesis ::
        cache[id];
      SoundSubset(start, base, cache, known);
      var built, v, projections, waiting, cur :=
        BuildBatch(start, known, ordered.value, refuses, base, batch, ops, world);
      if built.Err? {
        return Err(built.error), [];
      }
      // Any of the known states may be evicted.
      var evicted: set<OpId> := *;
      var cached := map id | id in cache.Keys + projections.Keys && id !in evicted ::
        if id in cache then cache[id] else projections[id];
      GrewExtends(base, ops, cur, built.value);
      SoundTogether(base, view, log, cache, v, cur, projections, cached);
      view, log, cache := v, cur, cached;
      SettlesExactly(ops, view, waiting);
      if Complete(view, log) {
        GrewHolds(base, ops, log, built.value);
        SoundHolds(view, log, cache);
        FlowsConnected(view, log, ops, waiting);
      }
      if !reset && Complete(view, log) {
        OnlyMended(start, base, view, log, Topology.Emitted(ops));
      }
      r, pending := Ok(built.value), waiting;
    }
  }

  lemma SettlesExactly(ops: seq<Op>, v: View, pending: seq<(Op, set<OpId>)>)
    requires Settles(ops, v, pending)
    ensures WaitsExactly(v, pending)
  {
  }

  lemma AuthenticBase(log: Log, base: Log, ops: seq<Op>)
    requires AuthenticBatch(log, ops) && (base == log || base == map[])
    ensures AuthenticBatch(base, ops)
  {
  }

  lemma GrewExtends(base: Log, ops: seq<Op>, log: Log, accepted: set<OpId>)
    requires Grew(base, ops, log, accepted)
    ensures Extends(base, log)
  {
  }

  lemma GrewHolds(base: Log, ops: seq<Op>, log: Log, accepted: set<OpId>)
    requires Grew(base, ops, log, accepted)
    ensures forall op <- ops :: op.id in log ==> log[op.id] == op
  {
  }

  lemma CyclicCannotFlow(v: View, base: Log, ops: seq<Op>, world: Log, refuses: Op -> bool, batch: Topology.Batch)
    requires Topology.Named(batch) && batch.Keys == Topology.Emitted(ops) && forall id <- batch :: batch[id] in ops
    requires Topology.Cyclic(batch)
    ensures !Flows(v, base, ops, world, refuses)
  {
    hide Mends, Topology.Cyclic;
    if Flows(v, base, ops, world, refuses) {
      GoodClosed(world);
      FlowsBatch(world, ops, batch);
      assert false;
    }
  }

  lemma CyclicNotOffered(v: View, base: Log, ops: seq<Op>, world: Log, batch: Topology.Batch)
    requires Topology.Named(batch) && batch.Keys == Topology.Emitted(ops) && forall id <- batch :: batch[id] in ops
    requires Topology.Cyclic(batch)
    ensures !Offered(v, base, ops, world)
  {
    if Offered(v, base, ops, world) {
      OfferedBatch(world, base, ops, batch);
      assert false;
    }
  }
}
