/**
 When an operation is valid: judged at its own dependencies, by the full ancestry
 behind them. `Good` is the invariant of every admitted history.
 */
module Validity {
  import opened Prelude
  import opened Dag
  import opened Membership

  const MAX_TYPE_BYTES: nat := 1024

  /** The actor an author writes as in this topic: a hash of both, so a function of the author. */
  function ActorIdFor(author: PeerId): ActorId {
    author
  }

  /** Hashes of different authors differ. */
  lemma OwnActor(a: PeerId, b: PeerId)
    ensures ActorIdFor(a) == ActorIdFor(b) <==> a == b
  {
  }

  /** The generation exceeds those of all dependencies by as little as possible. */
  ghost predicate GenerationExact(log: Log, op: Op)
    requires op.deps <= log.Keys
  {
    && (op.deps == {} ==> op.gen == 0)
    && (forall d <- op.deps :: log[d].gen < op.gen)
    && (op.deps != {} ==> exists d :: d in op.deps && log[d].gen + 1 == op.gen)
  }

  /** The author is a member, and the event type fits, at the operation's dependencies. */
  ghost predicate MemberAt(log: Log, op: Op)
    requires Closed(log) && op.deps <= log.Keys
  {
    exists st :: IsState(log, Below(log, op.deps), st) && Permits(st, op)
  }

  ghost predicate Permits(st: TopicState, op: Op) {
    op.author in st.members && (op.payload.Event? ==> op.payload.typeId == st.eventType)
  }

  ghost predicate GenesisForm(op: Op)
    requires op.payload.Genesis?
  {
    op.pos == 1 && op.prev.None? && op.deps == {} && |op.payload.eventType| <= MAX_TYPE_BYTES
  }

  ghost predicate ValidAt(log: Log, op: Op)
    requires Closed(log) && op.deps <= log.Keys
  {
    && op.actor == ActorIdFor(op.author)
    && ChainLink(log, op)
    && GenerationExact(log, op)
    && (if op.payload.Genesis? then GenesisForm(op) else MemberAt(log, op))
  }

  ghost predicate OneGenesis(log: Log) {
    forall x <- log, y <- log :: log[x].payload.Genesis? && log[y].payload.Genesis? ==> x == y
  }

  /** An admitted history: fork-free, under one genesis, every operation valid at its place. */
  ghost predicate Good(log: Log) {
    && Closed(log)
    && ForkFree(log)
    && OneGenesis(log)
    && forall id {:trigger ValidAt(log, log[id])} :: id in log ==> ValidAt(log, log[id])
  }

  /** Every author has a chain of its own. */
  lemma OneAuthorAChain(log: Log, x: OpId, y: OpId)
    requires Good(log) && x in log && y in log
    ensures log[x].actor == log[y].actor <==> log[x].author == log[y].author
  {
    hide MemberAt, GenesisForm, GenerationExact, ChainLink;
    assert ValidAt(log, log[x]) && ValidAt(log, log[y]);
  }

  lemma GoodClosed(log: Log)
    requires Good(log)
    ensures Closed(log)
  {
  }

  lemma GoodIsChained(log: Log)
    requires Good(log)
    ensures Chained(log)
  {
    forall id | id in log
      ensures ChainLink(log, log[id])
    {
      assert ValidAt(log, log[id]);
    }
  }

  /** Every operation stands on the genesis. */
  lemma {:induction false} GenesisBelow(log: Log, s: set<OpId>, x: OpId) returns (g: OpId)
    requires Good(log) && DownClosed(log, s) && x in s
    ensures g in s && log[g].payload.Genesis?
    decreases log[x].gen
  {
    assert ValidAt(log, log[x]);
    if log[x].payload.Genesis? {
      g := x;
    } else {
      var st :| IsState(log, Below(log, log[x].deps), st) && Permits(st, log[x]);
      assert st.genesis in Below(log, log[x].deps);
      g := st.genesis;
      BelowIsLeast(log, log[x].deps, s);
    }
  }

  /** Whether an operation is valid at its place does not depend on anything admitted besides. */
  lemma ValidFrame(log: Log, more: Log, op: Op)
    requires Closed(log) && Closed(more) && Extends(log, more) && op.deps <= log.Keys
    ensures op.deps <= more.Keys
    ensures ValidAt(log, op) <==> ValidAt(more, op)
  {
    var s := Below(log, op.deps);
    BelowFrame(log, more, op.deps);
    forall st: TopicState
      ensures IsState(log, s, st) <==> IsState(more, s, st)
    {
      StateFrame(log, more, s, st);
    }
  }

  ghost predicate PositionFree(log: Log, op: Op) {
    forall x <- log :: !(log[x].actor == op.actor && log[x].pos == op.pos)
  }

  /** What one new operation must satisfy for the history to stay good. */
  ghost predicate Admissible(log: Log, op: Op)
    requires Closed(log) && op.deps <= log.Keys
  {
    && ValidAt(log, op)
    && PositionFree(log, op)
    && (op.payload.Genesis? ==> forall x <- log :: !log[x].payload.Genesis?)
  }

  lemma ExtendClosed(log: Log, op: Op)
    requires Closed(log) && op.id !in log && op.deps <= log.Keys && GenerationExact(log, op)
    ensures Closed(log[op.id := op]) && Extends(log, log[op.id := op])
  {
  }

  lemma UniqueGrows(log: Log, op: Op)
    requires ForkFree(log) && OneGenesis(log) && op.id !in log && PositionFree(log, op)
    requires op.payload.Genesis? ==> forall x <- log :: !log[x].payload.Genesis?
    ensures ForkFree(log[op.id := op]) && OneGenesis(log[op.id := op])
  {
  }

  lemma ValidGrows(log: Log, op: Op, id: OpId)
    requires Good(log) && op.id !in log && op.deps <= log.Keys && ValidAt(log, op)
    requires id in log || id == op.id
    ensures Closed(log[op.id := op]) && log[op.id := op][id].deps <= log[op.id := op].Keys
    ensures ValidAt(log[op.id := op], log[op.id := op][id])
  {
    hide ChainLink, MemberAt, GenerationExact, ForkFree, OneGenesis, GenesisForm;
    var more := log[op.id := op];
    ExtendClosed(log, op);
    var held := more[id];
    assert held.deps <= log.Keys && ValidAt(log, held);
    ValidFrame(log, more, held);
  }

  /** Admission step: an admissible operation keeps the history good. */
  lemma GoodGrows(log: Log, op: Op)
    requires Good(log) && op.id !in log && op.deps <= log.Keys && Admissible(log, op)
    ensures Good(log[op.id := op])
  {
    hide ChainLink, MemberAt, GenerationExact, ForkFree, OneGenesis, PositionFree, GenesisForm;
    ExtendClosed(log, op);
    UniqueGrows(log, op);
    var more := log[op.id := op];
    forall id | id in more
      ensures ValidAt(more, more[id])
    {
      ValidGrows(log, op, id);
    }
  }

  /** Conversely, an operation of a good history was admissible wherever its dependencies are held. */
  lemma GoodPart(log: Log, more: Log, op: Op)
    requires Closed(log) && Good(more) && Extends(log, more)
    requires op.id !in log && op.deps <= log.Keys && op.id in more && more[op.id] == op
    ensures Admissible(log, op)
  {
    assert ValidAt(more, more[op.id]);
    ValidFrame(log, more, op);
    forall x | x in log
      ensures !(log[x].actor == op.actor && log[x].pos == op.pos)
      ensures !(op.payload.Genesis? && log[x].payload.Genesis?)
    {
      assert more[x] == log[x] && x != op.id;
    }
  }
}
