/**
 Local writes: an operation built on the current frontier passes its own validation
 and becomes the only head.
 */
module LocalWrites {
  import opened Prelude
  import opened Dag
  import opened Membership
  import opened Validity
  import opened Store
  import opened Projection
  import opened Admission
  import O = Oplog

  const MAX_TOPIC_ACTORS: nat := 90_000

  /** The body a local write signs; its hash becomes `id`. */
  method NextLocalOp(v: View, author: PeerId, actor: ActorId, payload: Payload, id: OpId)
    returns (r: Result<Op, Error>)
    ensures r.Ok? <==>
      && (actor in v.tips ==> v.tips[actor].0 < U64_MAX)
      && (v.heads != {} || actor in v.tips ==> v.maxGen < U64_MAX)
    ensures r.Ok? ==>
      && r.value.id == id && r.value.author == author && r.value.actor == actor
      && r.value.payload == payload
      && r.value.deps == v.heads + (if actor in v.tips then {v.tips[actor].1} else {})
      && r.value.gen == (if r.value.deps == {} then 0 else v.maxGen + 1)
      && FollowsTip(v.tips, r.value)
  {
    var next := NextActorPosition(TipOf(v, actor));
    if next.Err? {
      return Err(InvalidOpId);
    }
    var (pos, prev) := next.value;
    var deps := v.heads;
    if prev.Some? {
      deps := deps + {prev.value};
    }
    if deps != {} && v.maxGen == U64_MAX {
      return Err(InvalidOpId);
    }
    r := Ok(Op(id, author, actor, pos, prev, deps, if deps == {} then 0 else v.maxGen + 1, payload));
  }

  /** The highest generation sits on a head: nothing can stand on it. */
  lemma MaxGenOnHead(v: View, log: Log) returns (h: OpId)
    requires Closed(log) && HeadsMatch(v.heads, log) && MaxGenMatches(v.maxGen, log) && log != map[]
    ensures h in v.heads && log[h].gen == v.maxGen
  {
    if v.maxGen == 0 {
      h :| h in log;
    } else {
      h :| h in log && log[h].gen == v.maxGen;
    }
  }

  lemma LocalGeneration(v: View, log: Log, op: Op)
    requires Closed(log) && HeadsMatch(v.heads, log) && MaxGenMatches(v.maxGen, log)
    requires v.heads <= op.deps <= log.Keys
    requires op.gen as int == if op.deps == {} then 0 else v.maxGen as int + 1
    ensures GenerationExact(log, op)
  {
  }

  /** Dependencies that contain the frontier reach the whole history. */
  lemma LocalDepsReachAll(v: View, log: Log, deps: set<OpId>)
    requires Closed(log) && HeadsMatch(v.heads, log) && v.heads <= deps <= log.Keys
    ensures Below(log, deps) == log.Keys
  {
    HeadsReachAll(log, v.heads);
    BelowUnion(log, v.heads, deps);
    assert v.heads + deps == deps;
  }

  /** The state at `deps` by a plain walk over their whole ancestry, each operation of which is read. */
  method StateForDeps(v: View, deps: set<OpId>, ghost log: Log) returns (r: Result<TopicState, Error>)
    requires Represents(v, log) && deps <= log.Keys
    ensures r.Ok? ==> IsState(log, Below(log, deps), r.value)
    ensures r.Ok? <==> deps != {} && Below(log, deps) <= v.ops.Keys
  {
    hide IndexesMatch, StateMatches, MetasMatch, Walked, IsState, Below, OneGenesis;
    var seen: set<OpId>, walk, reached: seq<Op> := {}, deps, [];
    ghost var folded: seq<Op> := [];
    WalkStarts(log, deps);
    assert Ids(reached) == {};
    while walk != {}
      invariant Walked(log, deps, walk, seen, {}, folded)
      invariant Recorded(log, reached) && Ids(reached) == seen && seen <= v.ops.Keys
      decreases Below(log, deps) - seen, walk
    {
      var id :| id in walk;
      WalkedWithin(log, deps, walk, seen, {}, folded);
      if id in seen {
        WalkSeen(log, deps, walk, seen, {}, folded, id);
        walk := walk - {id};
        continue;
      }
      if id !in v.ops {
        return Err(MissingDependency(id));
      }
      var op := v.ops[id];
      assert op == log[id] && op.id == id;
      WalkStep(log, deps, walk, seen, {}, folded, id);
      FoldedIds(reached, op);
      walk, seen, reached := walk - {id} + op.deps, seen + {id}, reached + [op];
      folded := if op.payload.Event? then folded else folded + [op];
    }
    WalkMetGenesis(log, deps, seen, folded);
    WalkReaches(log, deps, seen, folded);
    BelowNothing(log);
    r := Materialize(reached, log);
  }

  lemma WalkReaches(log: Log, deps: set<OpId>, seen: set<OpId>, folded: seq<Op>)
    requires Closed(log) && deps <= log.Keys && Walked(log, deps, {}, seen, {}, folded)
    ensures seen == Below(log, deps) && Ids(folded) <= seen
  {
    WalkCovers(log, deps, seen, {});
    BelowNothing(log);
  }

  /**
   What validation reads for dependencies `deps`: their own records, and every operation below them
   unless they are the frontier, whose state is kept.
   */
  ghost predicate Readable(v: View, log: Log, deps: set<OpId>)
    requires Closed(log)
  {
    && deps <= v.ops.Keys && deps <= v.meta.Keys
    && (deps == v.heads || Below(log, deps) <= v.ops.Keys)
  }

  /** Whether the author may write at the operation's dependencies. */
  method CheckLocalMember(v: View, op: Op, ghost log: Log) returns (r: Result<(), Error>)
    requires Represents(v, log) && op.deps <= log.Keys && !op.payload.Genesis?
    ensures r.Ok? <==> MemberAt(log, op) && (op.deps == v.heads || Below(log, op.deps) <= v.ops.Keys)
  {
    hide IsState, Below, MemberAt, MetasMatch, OpsMatch, ForkFree, OneGenesis;
    hide IndexMatches, TipsMatch, ChildrenMatch, HeadsMatch, MaxGenMatches;
    NobodyAtNothing(log, op);
    if v.state.None? {
      return Err(TopicNotFound);
    }
    var st := v.state.value;
    SameEventType(log, op, st);
    if op.payload.Event? && op.payload.typeId != st.eventType {
      return Err(EventTypeMismatch);
    }
    if op.deps == v.heads {
      HeadsShortcut(v, log, op.deps);
    } else {
      var at := StateForDeps(v, op.deps, log);
      if at.Err? {
        return Err(at.error);
      }
      st := at.value;
      SameEventType(log, op, st);
    }
    MemberDecided(log, op, st);
    r := if op.author in st.members then Ok(()) else Err(NotTopicMember);
  }

  /** The dependencies can all be read, or the first found that cannot. */
  method CheckHeld<T>(deps: set<OpId>, held: map<OpId, T>) returns (r: Result<(), Error>)
    ensures r.Ok? <==> deps <= held.Keys
  {
    var todo := deps;
    while todo != {}
      invariant todo <= deps && deps - todo <= held.Keys
      decreases todo
    {
      var d :| d in todo;
      if d !in held {
        return Err(MissingDependency(d));
      }
      todo := todo - {d};
    }
    r := Ok(());
  }

  /**
   The validation of a local write before it is committed: it passes exactly the admissible
   operations whose dependencies can be read as far as the checks need them.
   */
  method ValidateOp(v: View, op: Op, ghost log: Log) returns (r: Result<(), Error>)
    requires Represents(v, log) && op.id !in log
    ensures r.Ok? ==> op.deps <= log.Keys && FollowsTip(v.tips, op)
    ensures op.actor == ActorIdFor(op.author) && !op.payload.Genesis? && (op.actor, op.pos) in v.index ==>
      r == Err(ActorFork)
    ensures op.deps <= log.Keys ==>
      (r.Ok? <==> Admissible(log, op) && if op.payload.Genesis? then op.deps == {} else Readable(v, log, op.deps))
  {
    hide MemberAt, MetasMatch, OpsMatch, GenerationExact, FollowsTip, StateMatches, Admissible, Below;
    hide IndexesMatch, Closed, ForkFree, OneGenesis;
    HeldIsHistory(v, log);
    IndexIsHistory(v, log);
    if op.deps <= log.Keys {
      CheckedIsAdmissible(v, log, op);
    }
    if op.actor != ActorIdFor(op.author) {
      return Err(ActorAuthorMismatch);
    }
    if op.payload.Genesis? && (|op.payload.eventType| > MAX_TYPE_BYTES || v.state.Some?) {
      return Err(InvalidGenesis);
    }
    if (op.actor, op.pos) in v.index && v.index[(op.actor, op.pos)] != op.id {
      if op.deps <= log.Keys {
        HeldPosition(v, log, op);
      }
      return Err(ActorFork);
    }
    r := CheckPosition(v, op);
    if r.Err? {
      return;
    }
    if op.prev.Some? && op.prev.value !in op.deps {
      return Err(ActorPrevMismatch);
    }
    r := CheckHeld(op.deps, v.ops);
    if r.Err? {
      return;
    }
    if op.payload.Genesis? {
      if op.pos != 1 || op.prev.Some? || op.deps != {} || v.state.Some? {
        return Err(InvalidGenesis);
      }
    } else {
      r := CheckLocalMember(v, op, log);
      if r.Err? {
        return;
      }
    }
    r := CheckHeld(op.deps, v.meta);
    if r.Ok? {
      r := CheckGeneration(v, op, log);
    }
  }

  lemma IndexIsHistory(v: View, log: Log)
    requires Represents(v, log)
    ensures forall k <- v.index :: v.index[k] in log
  {
    hide Good, MetasMatch, OpsMatch, StateMatches;
  }

  lemma HeldIsHistory(v: View, log: Log)
    requires OpsMatch(v.ops, log)
    ensures v.ops.Keys <= log.Keys
  {
  }

  /** The payload may be written now by a member with room left in every counter. */
  ghost predicate MayWrite(v: View, author: PeerId, payload: Payload) {
    if payload.Genesis? then
      v.state.None? && |payload.eventType| <= MAX_TYPE_BYTES
    else
      && v.state.Some?
      && author in v.state.value.members
      && (payload.Event? ==> payload.typeId == v.state.value.eventType)
      && RoomToWrite(v, ActorIdFor(author))
  }

  ghost predicate RoomToWrite(v: View, actor: ActorId) {
    && (actor in v.tips || |v.tips| < MAX_TOPIC_ACTORS)
    && (actor in v.tips ==> v.tips[actor].0 < U64_MAX)
    && v.maxGen < U64_MAX
  }

  /** A topic has state, heads and tips together or not at all. */
  lemma TopicStarted(v: View, log: Log)
    requires Represents(v, log)
    ensures v.state.None? ==> v.heads == {} && v.tips == map[] && log == map[]
    ensures v.state.Some? ==> v.heads != {}
  {
    hide MetasMatch, OpsMatch, IndexMatches, ChildrenMatch, MaxGenMatches, Good, IsState;
    if v.state.Some? {
      StateHoldsGenesis(log, log.Keys, v.state.value);
      assert v.state.value.genesis in v.heads || v.heads != {} by {
        GoodClosed(log);
        HeadsReachAll(log, v.heads);
        BelowNothing(log);
      }
    }
  }

  /** An operation built on the frontier and its own tip is valid whenever its payload is allowed. */
  lemma LocalIsAdmissible(v: View, log: Log, op: Op)
    requires Represents(v, log) && op.id !in log && op.actor == ActorIdFor(op.author)
    requires FollowsTip(v.tips, op)
    requires op.deps == v.heads + (if op.actor in v.tips then {v.tips[op.actor].1} else {})
    requires op.gen as int == if op.deps == {} then 0 else v.maxGen as int + 1
    ensures v.heads <= op.deps <= log.Keys
    ensures Admissible(log, op) <==>
      if op.payload.Genesis? then v.state.None? && |op.payload.eventType| <= MAX_TYPE_BYTES
      else v.state.Some? && Permits(v.state.value, op)
  {
    hide MetasMatch, OpsMatch, IndexMatches, ChildrenMatch, MemberAt, Admissible, IsState, Below, OneGenesis, ForkFree;
    hide MaxGenMatches, GenerationExact, Closed;
    TipHeld(v, log, op.actor);
    assert v.heads <= op.deps <= log.Keys;
    LocalGeneration(v, log, op);
    CheckedIsAdmissible(v, log, op);
    TopicStarted(v, log);
    if v.state.Some? {
      LocalDepsReachAll(v, log, op.deps);
      MemberDecided(log, op, v.state.value);
    } else {
      NobodyAtNothing(log, op);
    }
  }

  lemma TipHeld(v: View, log: Log, actor: ActorId)
    requires TipsMatch(v.tips, log)
    ensures actor in v.tips ==> v.tips[actor].1 in log
  {
  }

  /** What a local write depends on: the frontier and the author's own last operation. */
  function LocalDeps(v: View, actor: ActorId): set<OpId> {
    v.heads + if actor in v.tips then {v.tips[actor].1} else {}
  }

  /** The author passes the checks made before an operation is built, and no counter is at its end. */
  ghost predicate Allowed(v: View, author: PeerId, payload: Payload) {
    var actor := ActorIdFor(author);
    && (payload.Genesis? ||
        (v.state.Some? && author in v.state.value.members && (actor in v.tips || |v.tips| < MAX_TOPIC_ACTORS)))
    && (actor in v.tips ==> v.tips[actor].0 < U64_MAX)
    && (v.heads != {} || actor in v.tips ==> v.maxGen < U64_MAX)
  }

  /** An operation at the next position of its author, on what a local write depends on. */
  ghost predicate IsLocal(v: View, op: Op) {
    && op.actor == ActorIdFor(op.author)
    && FollowsTip(v.tips, op)
    && op.deps == LocalDeps(v, op.actor)
    && op.gen as int == if op.deps == {} then 0 else v.maxGen as int + 1
  }

  method BuildLocal(v: View, author: PeerId, payload: Payload, id: OpId) returns (r: Result<Op, Error>)
    ensures r.Ok? <==> Allowed(v, author, payload)
    ensures r.Ok? ==> r.value.id == id && r.value.author == author && r.value.payload == payload && IsLocal(v, r.value)
  {
    var actor := ActorIdFor(author);
    if !payload.Genesis? {
      if v.state.None? {
        return Err(TopicNotFound);
      }
      if author !in v.state.value.members {
        return Err(NotTopicMember);
      }
      if actor !in v.tips && |v.tips| >= MAX_TOPIC_ACTORS {
        return Err(TopicFull);
      }
    }
    r := NextLocalOp(v, author, actor, payload, id);
  }

  /**
   A local write with no commit in between: it succeeds exactly when the author may write and what it
   depends on can be read, never fails its own validation otherwise, and the operation becomes the
   only head.
   */
  method CreateLocal(v: View, author: PeerId, payload: Payload, id: OpId, ghost log: Log)
    returns (r: Result<Op, Error>, v': View)
    requires Represents(v, log) && id !in log
    ensures r.Ok? <==> MayWrite(v, author, payload) && Readable(v, log, LocalDeps(v, ActorIdFor(author)))
    ensures r.Err? ==> v' == v
    ensures r.Ok? ==>
      && r.value.id == id && r.value.author == author && r.value.payload == payload
      && IsLocal(v, r.value) && StoredAs(v, log, r.value, v')
  {
    hide Represents, Readable, MayWrite, Allowed, IsLocal, StoredAs;
    r := BuildLocal(v, author, payload, id);
    MayWriteIsAllowed(v, log, author, payload);
    if r.Err? {
      return r, v;
    }
    LocalDepends(v, r.value);
    var done;
    done, v' := StoreLocal(v, r.value, log);
    if done.Err? {
      return Err(done.error), v;
    }
  }

  /** The operation is the only head of the larger history, stored whole, and no other record changed hands. */
  ghost predicate StoredAs(v: View, log: Log, op: Op, v': View) {
    var log' := log[op.id := op];
    && v'.heads == {op.id} && Represents(v', log')
    && v'.ops.Keys == v.ops.Keys + {op.id} && v'.meta.Keys == v.meta.Keys + {op.id}
    && O.AddsWhole(v, log, v', log')
    && (Complete(v, log) ==> Complete(v', log'))
  }

  lemma LocalDepends(v: View, op: Op)
    requires IsLocal(v, op)
    ensures op.actor == ActorIdFor(op.author) && op.deps == LocalDeps(v, op.actor) && FollowsTip(v.tips, op)
  {
  }

  /** Validates and commits an operation built on the store as it is. */
  method StoreLocal(v: View, op: Op, ghost log: Log) returns (r: Result<(), Error>, v': View)
    requires Represents(v, log) && op.id !in log && IsLocal(v, op) && Allowed(v, op.author, op.payload)
    ensures r.Ok? <==> MayWrite(v, op.author, op.payload) && Readable(v, log, op.deps)
    ensures r.Err? ==> v' == v
    ensures r.Ok? ==> StoredAs(v, log, op, v')
  {
    hide Represents, Admissible, Good, Below, Closed, FollowsTip, MayWrite, Complete, Allowed, StoredAs, IsLocal;
    v' := v;
    BuiltIsAllowed(v, log, op);
    LocalDepends(v, op);
    r := ValidateOp(v, op, log);
    if r.Ok? {
      v' := CommitLocal(v, op, log);
      StoresWhole(v, log, op, v');
    }
  }

  lemma StoresWhole(v: View, log: Log, op: Op, v': View)
    requires op.id !in log && op.deps <= v.ops.Keys && op.deps <= v.meta.Keys
    requires v'.heads == {op.id} && Represents(v', log[op.id := op])
    requires v'.ops.Keys == v.ops.Keys + {op.id} && v'.meta.Keys == v.meta.Keys + {op.id}
    ensures StoredAs(v, log, op, v')
  {
    hide Represents;
  }

  // ---- a node's own writes ----

  /** An ideal hash: the id of a body is an id whose content is that body. */
  ghost predicate Names(name: Op -> OpId, content: OpId -> Op) {
    forall op :: content(name(op)) == op.(id := name(op))
  }

  ghost predicate Contains(log: Log, content: OpId -> Op) {
    forall id <- log :: log[id] == content(id)
  }

  /** The next operation of an author is new to the history, whatever its id. */
  lemma LocalIsNew(v: View, log: Log, op: Op, name: Op -> OpId, content: OpId -> Op)
    requires Represents(v, log) && IsLocal(v, op) && Names(name, content) && Contains(log, content)
    ensures name(op) !in log && IsLocal(v, op.(id := name(op)))
  {
    hide Good, MetasMatch, OpsMatch, IndexMatches, StateMatches, ChildrenMatch, HeadsMatch, MaxGenMatches;
    assert content(name(op)).actor == op.actor && content(name(op)).pos == op.pos;
  }

  /** What a write leaves: the author's next operation on the frontier if the author may write, else nothing. */
  ghost predicate Wrote(v: View, log: Log, author: PeerId, payload: Payload, name: Op -> OpId, log': Log)
    requires Closed(log)
  {
    if MayWrite(v, author, payload) && Readable(v, log, LocalDeps(v, ActorIdFor(author))) then
      exists op :: WrittenAs(v, author, payload, name, op) && log' == log[op.id := op]
    else log' == log
  }

  ghost predicate WrittenAs(v: View, author: PeerId, payload: Payload, name: Op -> OpId, op: Op) {
    op.author == author && op.payload == payload && IsLocal(v, op) && op.id == name(op.(id := 0))
  }

  /** The operation follows the last one its own author has in the history, or starts the author's chain. */
  ghost predicate ContinuesOwn(log: Log, op: Op) {
    if forall x <- log :: log[x].author != op.author then op.pos == 1 && op.prev.None?
    else
      && op.prev.Some? && op.prev.value in log && op.prev.value in op.deps
      && log[op.prev.value].author == op.author && log[op.prev.value].pos + 1 == op.pos
      && forall x <- log :: log[x].author == op.author ==> log[x].pos < op.pos
  }

  lemma LocalContinues(v: View, log: Log, op: Op)
    requires Represents(v, log) && IsLocal(v, op)
    ensures ContinuesOwn(log, op)
  {
    hide MetasMatch, OpsMatch, IndexMatches, StateMatches, ChildrenMatch, HeadsMatch, MaxGenMatches;
    hide ForkFree, OneGenesis, MemberAt, GenesisForm, GenerationExact, ChainLink;
    forall x | x in log
      ensures log[x].actor == ActorIdFor(log[x].author)
      ensures log[x].actor == op.actor <==> log[x].author == op.author
    {
      assert ValidAt(log, log[x]);
      OwnActor(log[x].author, op.author);
    }
  }

  /** A local write of a node: its operation is named, validated and committed, or nothing changes. */
  method WriteLocal(node: O.Oplog, author: PeerId, payload: Payload, name: Op -> OpId, ghost content: OpId -> Op)
    returns (r: Result<Op, Error>)
    requires node.Valid() && Names(name, content) && Contains(node.log, content)
    modifies node
    ensures node.Valid() && Contains(node.log, content)
    ensures Wrote(old(node.view), old(node.log), author, payload, name, node.log)
    ensures r.Err? ==> node.view == old(node.view) && node.log == old(node.log)
    ensures r.Ok? ==>
      && WrittenAs(old(node.view), author, payload, name, r.value)
      && r.value.id !in old(node.log) && node.log == old(node.log)[r.value.id := r.value]
      && StoredAs(old(node.view), old(node.log), r.value, node.view)
      && ContinuesOwn(old(node.log), r.value)
  {
    hide Represents, ProjectionsMatch, Readable, MayWrite, Allowed, IsLocal, StoredAs, Names;
    hide ContinuesOwn;
    ghost var (v, log) := (node.view, node.log);
    r := BuildLocal(node.view, author, payload, 0);
    MayWriteIsAllowed(v, log, author, payload);
    if r.Err? {
      return;
    }
    LocalIsNew(v, log, r.value, name, content);
    NamedContent(name, content, r.value);
    var op := r.value.(id := name(r.value));
    LocalDepends(v, op);
    var done, v' := StoreLocal(node.view, op, node.log);
    if done.Err? {
      return Err(done.error);
    }
    LocalContinues(v, log, op);
    StoredIsSound(v, log, node.cache, op, v');
    node.view, node.log := v', log[op.id := op];
    r := Ok(op);
  }

  lemma NamedContent(name: Op -> OpId, content: OpId -> Op, op: Op)
    requires Names(name, content)
    ensures content(name(op)) == op.(id := name(op))
  {
  }

  lemma StoredIsSound(v: View, log: Log, cached: Projections, op: Op, v': View)
    requires O.Sound(v, log, cached) && op.id !in log && StoredAs(v, log, op, v')
    ensures O.Sound(v', log[op.id := op], cached)
  {
    hide ProjectionsMatch, MetasMatch, OpsMatch, IndexesMatch, StateMatches;
    GoodClosed(log);
    GoodClosed(log[op.id := op]);
    ProjectionsFrame(log, log[op.id := op], cached);
  }

  lemma MayWriteIsAllowed(v: View, log: Log, author: PeerId, payload: Payload)
    requires Represents(v, log)
    ensures MayWrite(v, author, payload) ==> Allowed(v, author, payload)
  {
    hide Represents;
    TopicStarted(v, log);
  }

  lemma BuiltIsAllowed(v: View, log: Log, op: Op)
    requires Represents(v, log) && op.id !in log && IsLocal(v, op) && Allowed(v, op.author, op.payload)
    ensures v.heads <= op.deps <= log.Keys
    ensures Admissible(log, op) <==> MayWrite(v, op.author, op.payload)
    ensures Readable(v, log, op.deps) ==> op.deps <= v.meta.Keys
    ensures MayWrite(v, op.author, op.payload) && op.payload.Genesis? ==> op.deps == {} && Readable(v, log, op.deps)
  {
    hide MetasMatch, OpsMatch, IndexesMatch, StateMatches, Admissible, Good, Below, FollowsTip, Closed;
    LocalIsAdmissible(v, log, op);
    TopicStarted(v, log);
    GoodClosed(log);
    BelowNothing(log);
  }

  /** Stores a validated local operation. */
  method CommitLocal(v: View, op: Op, ghost log: Log) returns (v': View)
    requires Represents(v, log) && op.id !in log && op.deps <= v.meta.Keys
    requires v.heads <= op.deps <= log.Keys && Admissible(log, op) && FollowsTip(v.tips, op)
    ensures v'.heads == {op.id} && Represents(v', log[op.id := op])
    ensures v'.ops.Keys == v.ops.Keys + {op.id} && v'.meta.Keys == v.meta.Keys + {op.id}
  {
    hide MemberAt, MetasMatch, OpsMatch, IndexesMatch, StateMatches, IsClock, Admissible, ForkFree, OneGenesis;
    var m := MetaForProjected(v, op, log);
    GoodGrows(log, op);
    NewMetaMatches(log, op, m.value);
    AdmitKeeps(v, log, op, m.value);
    v' := Admit(v, op, m.value);
  }
}
