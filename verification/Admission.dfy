/**
 Admission of one operation: the checks it must pass at its own dependencies, with
 the shortcuts that avoid walking history, and the metadata stored for it.
 */
module Admission {
  import opened Prelude
  import opened Dag
  import opened Membership
  import opened Validity
  import opened Store
  import opened Projection

  // ---- observed clocks ----

  lemma BelowOne(log: Log, done: set<OpId>, dep: OpId)
    requires Closed(log) && dep in log
    ensures Below(log, done + {dep}) == Below(log, done) + Below(log, log[dep].deps) + {dep}
  {
    BelowUnion(log, done, {dep});
    AncestorsAreBelowDeps(log, dep);
  }

  /** Metadata of `op`: its observed clock is the clock of everything below its dependencies. */
  method MetaForProjected(v: View, op: Op, ghost log: Log) returns (r: Result<Meta, Error>)
    requires Closed(log) && MetasMatch(v.meta, log) && op.deps <= log.Keys
    ensures r.Ok? <==> op.deps <= v.meta.Keys
    ensures r.Ok? ==> r.value == MetaOf(op, r.value.clock) && IsClock(log, Below(log, op.deps), r.value.clock)
  {
    hide Below, IsClock, Closed;
    var clock: Clock := map[];
    var todo := op.deps;
    ghost var done: set<OpId> := {};
    assert IsClock(log, Below(log, done), clock) by { ClockOfNothing(log); }
    while todo != {}
      invariant done + todo == op.deps && done <= v.meta.Keys
      invariant IsClock(log, Below(log, done), clock)
      decreases todo
    {
      var dep :| dep in todo;
      if dep !in v.meta {
        return Err(MissingDependency(dep));
      }
      var m := v.meta[dep];
      assert MetaMatches(log, m);
      MergeClock(log, Below(log, done), Below(log, log[dep].deps), clock, m.clock);
      clock := Merge(clock, m.clock);
      ObserveClock(log, Below(log, done) + Below(log, log[dep].deps), clock, dep);
      clock := Observe(clock, m.actor, m.pos);
      BelowOne(log, done, dep);
      todo, done := todo - {dep}, done + {dep};
    }
    assert done == op.deps;
    r := Ok(MetaOf(op, clock));
  }

  lemma ClockOfNothing(log: Log)
    requires Closed(log)
    ensures IsClock(log, Below(log, {}), map[])
  {
  }

  // ---- generations ----

  ghost predicate HighestNext(log: Log, done: set<OpId>, gen: u64)
    requires done <= log.Keys
  {
    && (forall d <- done :: log[d].gen < gen)
    && (if done == {} then gen == 0 else exists d :: d in done && log[d].gen + 1 == gen)
  }

  /** One past the highest generation of `deps`; zero without any. */
  method NextGeneration(v: View, deps: set<OpId>, ghost log: Log) returns (r: Result<u64, Error>)
    requires Closed(log) && MetasMatch(v.meta, log) && deps <= log.Keys
    ensures r.Ok? ==> HighestNext(log, deps, r.value)
    ensures deps <= v.meta.Keys && (forall d <- deps :: log[d].gen < U64_MAX) ==> r.Ok?
  {
    hide IsClock, Below, Closed;
    var gen: u64 := 0;
    var todo := deps;
    ghost var done: set<OpId> := {};
    while todo != {}
      invariant done + todo == deps
      invariant HighestNext(log, done, gen)
      decreases todo
    {
      var dep :| dep in todo;
      if dep !in v.meta {
        return Err(MissingDependency(dep));
      }
      assert v.meta[dep].gen == log[dep].gen;
      if v.meta[dep].gen == U64_MAX {
        return Err(InvalidOpId);
      }
      GenerationStep(log, done, gen, dep);
      gen := Max(gen, v.meta[dep].gen + 1);
      todo, done := todo - {dep}, done + {dep};
    }
    assert done == deps;
    r := Ok(gen);
  }

  lemma GenerationStep(log: Log, done: set<OpId>, gen: u64, dep: OpId)
    requires done <= log.Keys && dep in log && log[dep].gen < U64_MAX && HighestNext(log, done, gen)
    ensures HighestNext(log, done + {dep}, Max(gen, log[dep].gen + 1))
  {
  }

  lemma GenerationDecided(log: Log, op: Op, gen: u64)
    requires op.deps <= log.Keys && HighestNext(log, op.deps, gen)
    ensures GenerationExact(log, op) <==> op.gen == gen
  {
  }

  // ---- actor positions ----

  lemma TipLinks(log: Log, tips: map<ActorId, (u64, OpId)>, op: Op)
    requires Chained(log) && TipsMatch(tips, log)
    requires FollowsTip(tips, op) && (op.prev.Some? ==> op.prev.value in op.deps)
    ensures ChainLink(log, op) && PositionFree(log, op)
  {
  }

  lemma LinkTips(log: Log, tips: map<ActorId, (u64, OpId)>, op: Op)
    requires Closed(log) && Chained(log) && ForkFree(log) && TipsMatch(tips, log)
    requires ChainLink(log, op) && PositionFree(log, op)
    ensures FollowsTip(tips, op)
  {
    if op.actor in tips {
      var tip := tips[op.actor].1;
      assert ChainLink(log, log[tip]);
      if op.pos <= log[tip].pos {
        assert DownClosed(log, log.Keys);
        ChainHolds(log, log.Keys, tip, op.pos);
      }
    }
  }

  /** Following the tip is following the chain without a fork. */
  lemma TipIsChain(log: Log, tips: map<ActorId, (u64, OpId)>, op: Op)
    requires Closed(log) && Chained(log) && ForkFree(log) && TipsMatch(tips, log)
    ensures ChainLink(log, op) && PositionFree(log, op) <==>
            FollowsTip(tips, op) && (op.prev.Some? ==> op.prev.value in op.deps)
  {
    hide Closed, Chained, ForkFree, TipsMatch, FollowsTip, PositionFree;
    if FollowsTip(tips, op) && (op.prev.Some? ==> op.prev.value in op.deps) {
      TipLinks(log, tips, op);
    }
    if ChainLink(log, op) && PositionFree(log, op) {
      LinkTips(log, tips, op);
    }
  }

  // ---- membership at the dependencies ----

  /** With dependencies equal to the frontier, the current state is the state there. */
  lemma HeadsShortcut(v: View, log: Log, deps: set<OpId>)
    requires Closed(log) && HeadsMatch(v.heads, log) && StateMatches(v.state, log) && v.state.Some?
    requires deps == v.heads
    ensures IsState(log, Below(log, deps), v.state.value)
  {
    HeadsReachAll(log, v.heads);
  }

  /**
   A clock test on the winning controls of `st`: true only where `st` is also the state
   below the operation, and never false where all those controls are below it.
   */
  method CoversControls(v: View, op: Op, st: TopicState, ghost log: Log) returns (r: Result<bool, Error>)
    requires Represents(v, log) && op.deps <= log.Keys && IsState(log, log.Keys, st)
    ensures op.deps <= v.meta.Keys ==> r.Ok?
    ensures r.Ok? && r.value ==> IsState(log, Below(log, op.deps), st)
    ensures r.Ok? && op.deps != {} && Covered(Below(log, op.deps), st) ==> r.value
  {
    hide IndexesMatch, StateMatches, Below;
    if op.deps == {} {
      return Ok(false);
    }
    var m := MetaForProjected(v, op, log);
    if m.Err? {
      return Err(m.error);
    }
    var clock := m.value.clock;
    var peers := forall p <- st.controls :: Get(clock, st.controls[p].0.actor) >= st.controls[p].0.pos;
    var policy := st.policyControl.Some? ==>
      Get(clock, st.policyControl.value.0.actor) >= st.policyControl.value.0.pos;
    CoverageIsAncestry(log, op.deps, clock, st);
    r := Ok(peers && policy);
  }

  /** Every winning control of `st` lies in `s`. */
  ghost predicate Covered(s: set<OpId>, st: TopicState) {
    && (forall p <- st.controls :: st.controls[p].0.id in s)
    && (st.policyControl.Some? ==> st.policyControl.value.0.id in s)
  }

  ghost predicate KeysReached(clock: Clock, st: TopicState) {
    && (forall p <- st.controls :: Get(clock, st.controls[p].0.actor) >= st.controls[p].0.pos)
    && (st.policyControl.Some? ==>
          Get(clock, st.policyControl.value.0.actor) >= st.policyControl.value.0.pos)
  }

  lemma CoverageIsAncestry(log: Log, deps: set<OpId>, clock: Clock, st: TopicState)
    requires Good(log) && deps <= log.Keys && deps != {}
    requires IsClock(log, Below(log, deps), clock) && IsState(log, log.Keys, st)
    ensures KeysReached(clock, st) <==> Covered(Below(log, deps), st)
    ensures KeysReached(clock, st) ==> IsState(log, Below(log, deps), st)
  {
    hide Below, IsClock, Derived, OneGenesis;
    var s := Below(log, deps);
    BelowIsClosed(log, deps);
    GoodIsChained(log);
    forall p | p in st.controls
      ensures st.controls[p].0.id in s <==> Get(clock, st.controls[p].0.actor) >= st.controls[p].0.pos
    {
      ClockCovers(log, s, clock, st.controls[p].0.id);
    }
    if st.policyControl.Some? {
      ClockCovers(log, s, clock, st.policyControl.value.0.id);
    }
    if KeysReached(clock, st) {
      var x :| x in deps;
      var g := GenesisBelow(log, s, x);
      assert g == st.genesis;
      CoveredState(log, s, log.Keys, st);
    }
  }

  lemma MemberDecided(log: Log, op: Op, st: TopicState)
    requires Closed(log) && op.deps <= log.Keys && IsState(log, Below(log, op.deps), st)
    ensures MemberAt(log, op) <==> Permits(st, op)
  {
  }

  /** Whether the author may write at the operation's dependencies, by the cheapest sound route. */
  method CheckMember(v: View, op: Op, cached: Projections, ghost log: Log)
    returns (r: Result<(), Error>, kept: Projections)
    requires Represents(v, log) && op.deps <= log.Keys && !op.payload.Genesis?
    requires ProjectionsMatch(log, cached)
    ensures ProjectionsMatch(log, kept)
    ensures r.Ok? ==> MemberAt(log, op)
    ensures Intact(v, log, op.deps) && MemberAt(log, op) ==> r.Ok?
  {
    hide IsState, Below, MemberAt, MetasMatch, OpsMatch, Closed, ForkFree, OneGenesis, ProjectionsMatch;
    hide IndexMatches, TipsMatch, ChildrenMatch, HeadsMatch, MaxGenMatches;
    kept := cached;
    if v.state.None? {
      NobodyAtNothing(log, op);
      return Err(TopicNotFound), kept;
    }
    var st := v.state.value;
    SameEventType(log, op, st);
    if op.payload.Event? && op.payload.typeId != st.eventType {
      return Err(EventTypeMismatch), kept;
    }
    var covered: Result<bool, Error> := Ok(true);
    if op.deps != v.heads {
      covered := CoversControls(v, op, st, log);
    } else {
      HeadsShortcut(v, log, op.deps);
    }
    if covered.Err? {
      assert !Intact(v, log, op.deps) by { BelowIsClosed(log, op.deps); }
      return Err(covered.error), kept;
    }
    if !covered.value {
      var projected, cached' := ProjectMembership(v, op.deps, cached, log);
      kept := cached';
      if projected.Err? {
        NobodyAtNothing(log, op);
        return Err(projected.error), kept;
      }
      st := projected.value;
    }
    MemberDecided(log, op, st);
    if op.author !in st.members {
      return Err(NotTopicMember), kept;
    }
    SameEventType(log, op, st);
    r := Ok(());
  }

  /** Nobody is a member where the ancestry has no genesis. */
  lemma NobodyAtNothing(log: Log, op: Op)
    requires Closed(log) && op.deps <= log.Keys
    ensures op.deps == {} || log == map[] ==> !MemberAt(log, op)
  {
  }

  /** The event type of a topic is the same at every part of its history. */
  lemma SameEventType(log: Log, op: Op, st: TopicState)
    requires Closed(log) && OneGenesis(log) && op.deps <= log.Keys
    requires exists s :: s <= log.Keys && IsState(log, s, st)
    ensures forall at :: IsState(log, Below(log, op.deps), at) ==> at.eventType == st.eventType
    ensures op.payload.Event? && op.payload.typeId != st.eventType ==> !MemberAt(log, op)
  {
  }

  // ---- one operation ----

  /** Every check an operation passes before it joins the history. */
  ghost predicate Checked(v: View, log: Log, op: Op)
    requires Closed(log) && op.deps <= log.Keys
  {
    && op.actor == ActorIdFor(op.author)
    && FollowsTip(v.tips, op)
    && (op.prev.Some? ==> op.prev.value in op.deps)
    && (if op.payload.Genesis? then GenesisForm(op) && v.state.None? else MemberAt(log, op))
    && GenerationExact(log, op)
  }

  lemma CheckedIsAdmissible(v: View, log: Log, op: Op)
    requires Represents(v, log) && op.deps <= log.Keys && op.id !in log
    ensures Checked(v, log, op) <==> Admissible(log, op)
  {
    hide MemberAt, MetasMatch, OpsMatch, GenerationExact, FollowsTip, PositionFree, ChainLink, IsState;
    hide IndexMatches, TipsMatch, ChildrenMatch, HeadsMatch, MaxGenMatches, GenesisForm;
    GoodIsChained(log);
    TipIsChain(log, v.tips, op);
    EmptyWithoutGenesis(v, log);
  }

  lemma EmptyWithoutGenesis(v: View, log: Log)
    requires StateMatches(v.state, log)
    ensures v.state.None? <==> forall x <- log :: !log[x].payload.Genesis?
  {
  }

  function NextActorPosition(tip: Option<(u64, OpId)>): Result<(u64, Option<OpId>), Error> {
    match tip
    case Some((pos, id)) => if pos == U64_MAX then Err(InvalidOpId) else Ok((pos + 1, Some(id)))
    case None => Ok((1, None))
  }

  function TipOf(v: View, actor: ActorId): Option<(u64, OpId)> {
    if actor in v.tips then Some(v.tips[actor]) else None
  }

  /** Position checks: the operation follows its actor's tip, which it depends on. */
  method CheckPosition(v: View, op: Op) returns (r: Result<(), Error>)
    ensures r.Ok? <==> FollowsTip(v.tips, op)
  {
    var expected := NextActorPosition(TipOf(v, op.actor));
    if expected.Err? {
      return Err(expected.error);
    }
    if op.pos != expected.value.0 {
      return Err(ActorSeqGap);
    }
    if op.prev != expected.value.1 {
      return Err(ActorPrevMismatch);
    }
    r := Ok(());
  }

  method CheckGeneration(v: View, op: Op, ghost log: Log) returns (r: Result<(), Error>)
    requires Closed(log) && MetasMatch(v.meta, log) && op.deps <= log.Keys && op.deps <= v.meta.Keys
    ensures r.Ok? <==> GenerationExact(log, op)
  {
    hide HighestNext, MetasMatch, Closed;
    var gen := NextGeneration(v, op.deps, log);
    if gen.Err? {
      return Err(gen.error);
    }
    GenerationDecided(log, op, gen.value);
    r := if op.gen == gen.value then Ok(()) else Err(GenerationMismatch);
  }

  method CheckPayload(v: View, op: Op, cached: Projections, ghost log: Log)
    returns (r: Result<(), Error>, kept: Projections)
    requires Represents(v, log) && op.deps <= log.Keys && ProjectionsMatch(log, cached)
    ensures ProjectionsMatch(log, kept)
    ensures r.Ok? ==>
      if op.payload.Genesis? then GenesisForm(op) && v.state.None? else MemberAt(log, op)
    ensures
      && Intact(v, log, op.deps)
      && (if op.payload.Genesis? then GenesisForm(op) && v.state.None? else MemberAt(log, op))
      ==> r.Ok?
  {
    hide MemberAt, MetasMatch, OpsMatch, Below, ProjectionsMatch, IndexesMatch, Good, StateMatches;
    kept := cached;
    if op.payload.Genesis? {
      if op.pos != 1 || op.prev.Some? || op.deps != {} || |op.payload.eventType| > MAX_TYPE_BYTES || v.state.Some? {
        return Err(InvalidGenesis), kept;
      }
      r := Ok(());
    } else {
      r, kept := CheckMember(v, op, cached, log);
    }
  }

  /**
   Validates a new operation whose dependencies are all held. Acceptance means the
   history stays good; on readable records, every operation that keeps it good is
   accepted. No shortcut changes the verdict the full ancestry gives.
   */
  method ValidateOpProjected(v: View, op: Op, cached: Projections, ghost log: Log)
    returns (r: Result<(), Error>, kept: Projections)
    requires Represents(v, log) && op.id !in log
    requires op.deps <= log.Keys && op.deps <= v.ops.Keys && op.deps <= v.meta.Keys
    requires ProjectionsMatch(log, cached)
    ensures ProjectionsMatch(log, kept)
    ensures r.Ok? ==> Admissible(log, op) && FollowsTip(v.tips, op)
    ensures Intact(v, log, op.deps) && Admissible(log, op) ==> r.Ok?
  {
    hide MemberAt, MetasMatch, OpsMatch, GenerationExact, Below, ProjectionsMatch, FollowsTip, GenesisForm;
    hide IndexesMatch, Closed, ForkFree, OneGenesis, StateMatches, Admissible;
    CheckedIsAdmissible(v, log, op);
    kept := cached;
    if op.actor != ActorIdFor(op.author) {
      return Err(ActorAuthorMismatch), kept;
    }
    if op.prev.Some? && op.prev.value !in op.deps {
      return Err(ActorPrevMismatch), kept;
    }
    if (op.actor, op.pos) in v.index {
      HeldPosition(v, log, op);
      return Err(ActorFork), kept;
    }
    r, kept := CheckPayload(v, op, cached, log);
    if r.Ok? {
      r := CheckPosition(v, op);
    }
    if r.Ok? {
      r := CheckGeneration(v, op, log);
    }
  }

  lemma HeldPosition(v: View, log: Log, op: Op)
    requires Represents(v, log) && op.deps <= log.Keys && (op.actor, op.pos) in v.index
    ensures !Admissible(log, op)
  {
    assert log[v.index[(op.actor, op.pos)]].actor == op.actor;
  }

  lemma NewMetaMatches(log: Log, op: Op, m: Meta)
    requires Closed(log) && op.id !in log && op.deps <= log.Keys && Closed(log[op.id := op])
    requires m == MetaOf(op, m.clock) && IsClock(log, Below(log, op.deps), m.clock)
    ensures MetaMatches(log[op.id := op], m)
  {
    BelowFrame(log, log[op.id := op], op.deps);
    ClockFrame(log, log[op.id := op], Below(log, op.deps), m.clock);
  }
}
