/**
 What a node stores of one topic, and how it relates to the admitted history. The
 records of an operation may be damaged, so `ops` and `meta` may each miss some of
 the history; the indexes, the frontier and the topic state never do.
 */
module Store {
  import opened Prelude
  import opened Dag
  import opened Membership
  import opened Validity

  datatype Meta = Meta(
    id: OpId, author: PeerId, actor: ActorId, pos: u64, prev: Option<OpId>,
    deps: set<OpId>, gen: u64, clock: Clock)

  function MetaOf(op: Op, clock: Clock): Meta {
    Meta(op.id, op.author, op.actor, op.pos, op.prev, op.deps, op.gen, clock)
  }

  /**
   The stored topic, or the stored topic under the overlays of a batch being built:
   a lookup that the batch overlay answers first and the store second is one lookup here.
   */
  datatype View = View(
    ops: map<OpId, Op>,
    meta: map<OpId, Meta>,
    index: map<(ActorId, u64), OpId>,
    tips: map<ActorId, (u64, OpId)>,
    children: map<OpId, set<OpId>>,
    heads: set<OpId>,
    maxGen: u64,
    state: Option<TopicState>)

  function EmptyView(): View {
    View(map[], map[], map[], map[], map[], {}, 0, None)
  }

  ghost predicate OpsMatch(ops: map<OpId, Op>, log: Log) {
    forall id <- ops :: id in log && ops[id] == log[id]
  }

  /** Held metadata repeats the operation and carries the clock of its ancestors. */
  ghost predicate MetaMatches(log: Log, m: Meta)
    requires Closed(log) && m.id in log
  {
    && IsClock(log, Below(log, log[m.id].deps), m.clock)
    && m == MetaOf(log[m.id], m.clock)
  }

  ghost predicate MetasMatch(meta: map<OpId, Meta>, log: Log)
    requires Closed(log)
  {
    forall id {:trigger meta[id]} :: id in meta ==> id in log && meta[id].id == id && MetaMatches(log, meta[id])
  }

  ghost predicate IndexMatches(index: map<(ActorId, u64), OpId>, log: Log) {
    && (forall id <- log :: (log[id].actor, log[id].pos) in index && index[(log[id].actor, log[id].pos)] == id)
    && (forall k <- index :: index[k] in log && log[index[k]].actor == k.0 && log[index[k]].pos == k.1)
  }

  /** Each actor's tip is its latest operation. */
  ghost predicate TipsMatch(tips: map<ActorId, (u64, OpId)>, log: Log) {
    && (forall id <- log :: log[id].actor in tips && log[id].pos <= tips[log[id].actor].0)
    && (forall a <- tips ::
          tips[a].1 in log && log[tips[a].1].actor == a && log[tips[a].1].pos == tips[a].0)
  }

  ghost predicate ChildrenMatch(children: map<OpId, set<OpId>>, log: Log) {
    && (forall c <- log, d <- log[c].deps :: d in children && c in children[d])
    && (forall d <- children :: children[d] != {})
    && (forall d <- children, c <- children[d] :: c in log && d in log[c].deps)
  }

  /** The frontier is exactly the operations without a child. */
  ghost predicate HeadsMatch(heads: set<OpId>, log: Log) {
    && heads <= log.Keys
    && (forall h <- heads, y <- log :: h !in log[y].deps)
    && (forall x {:trigger x in heads} :: x in log ==>
          x in heads || exists y :: y in log && x in log[y].deps)
  }

  ghost predicate MaxGenMatches(maxGen: u64, log: Log) {
    && (forall id <- log :: log[id].gen <= maxGen)
    && (maxGen == 0 || exists id :: id in log && log[id].gen == maxGen)
  }

  ghost predicate StateMatches(state: Option<TopicState>, log: Log) {
    if state.None? then log == map[] else IsState(log, log.Keys, state.value)
  }

  ghost predicate IndexesMatch(v: View, log: Log) {
    && IndexMatches(v.index, log)
    && TipsMatch(v.tips, log)
    && ChildrenMatch(v.children, log)
    && HeadsMatch(v.heads, log)
    && MaxGenMatches(v.maxGen, log)
  }

  /** The store invariant: `v` stores the good history `log`, save for damaged records. */
  ghost predicate Represents(v: View, log: Log) {
    && Good(log)
    && OpsMatch(v.ops, log)
    && MetasMatch(v.meta, log)
    && IndexesMatch(v, log)
    && StateMatches(v.state, log)
  }

  /** No record is damaged. */
  ghost predicate Complete(v: View, log: Log) {
    v.ops.Keys == log.Keys && v.meta.Keys == log.Keys
  }

  /** Records below `ids` are all readable. */
  ghost predicate Intact(v: View, log: Log, ids: set<OpId>)
    requires Closed(log)
  {
    Below(log, ids) <= v.ops.Keys && Below(log, ids) <= v.meta.Keys
  }

  lemma EmptyRepresents()
    ensures Represents(EmptyView(), map[]) && Complete(EmptyView(), map[])
  {
  }

  /**
   In every store, an operation's observed clock reaches position `s` of actor `a` exactly when
   the operation indexed there is its ancestor.
   */
  lemma StoredClockIsAncestry(v: View, log: Log, b: OpId, a: ActorId, s: u64)
    requires Represents(v, log) && b in v.meta && s >= 1
    ensures s <= Get(v.meta[b].clock, a) <==> (a, s) in v.index && Ancestor(log, v.index[(a, s)], b)
  {
    hide ValidAt, OneGenesis, OpsMatch, StateMatches, TipsMatch, ChildrenMatch, HeadsMatch;
    hide MaxGenMatches, Ancestor, Below;
    GoodIsChained(log);
    assert MetaMatches(log, v.meta[b]);
    var (below, c) := (Below(log, log[b].deps), v.meta[b].clock);
    BelowIsClosed(log, log[b].deps);
    if s <= Get(c, a) {
      var y :| y in below && log[y].actor == a && log[y].pos == c[a];
      ChainHolds(log, below, y, s);
    }
    if (a, s) in v.index {
      ObservedClockIsAncestry(log, b, c, v.index[(a, s)]);
    }
  }

  // ---- the frontier reaches everything ----

  lemma {:induction false} HeadAbove(log: Log, heads: set<OpId>, x: OpId)
    requires Closed(log) && HeadsMatch(heads, log) && x in log
    ensures x in Below(log, heads)
    decreases U64_MAX - log[x].gen
  {
    if x !in heads {
      var y :| y in log && x in log[y].deps;
      HeadAbove(log, heads, y);
      BelowIsClosed(log, heads);
      assert log[y].deps <= Below(log, heads);
    }
  }

  lemma HeadsReachAll(log: Log, heads: set<OpId>)
    requires Closed(log) && HeadsMatch(heads, log)
    ensures Below(log, heads) == log.Keys
  {
    forall x | x in log
      ensures x in Below(log, heads)
    {
      HeadAbove(log, heads, x);
    }
  }

  /**
   Equal frontiers mean equal histories, since ids are hashes: a commit that finds the
   heads it was built on finds the history it was built on.
   */
  lemma HeadsNameTheHistory(a: Log, b: Log, heads: set<OpId>)
    requires Closed(a) && Closed(b) && HeadsMatch(heads, a) && HeadsMatch(heads, b)
    requires forall id :: id in a && id in b ==> a[id] == b[id]
    ensures a == b
  {
    HeadsReachAll(a, heads);
    HeadsReachAll(b, heads);
    SharedAncestry(a, b, heads);
    SharedAncestry(b, a, heads);
    assert a.Keys == b.Keys;
  }

  lemma SharedAncestry(a: Log, b: Log, heads: set<OpId>)
    requires Closed(a) && Closed(b) && heads <= a.Keys && heads <= b.Keys
    requires forall id :: id in a && id in b ==> a[id] == b[id]
    ensures Below(a, heads) <= b.Keys
  {
    var s := a.Keys * b.Keys;
    forall x | x in s
      ensures a[x].deps <= s
    {
      assert a[x] == b[x];
    }
    assert DownClosed(a, s);
    BelowIsLeast(a, heads, s);
  }

  // ---- a complete store is a function of its history ----

  lemma TipBounded(log: Log, a: map<ActorId, (u64, OpId)>, b: map<ActorId, (u64, OpId)>, k: ActorId)
    requires TipsMatch(a, log) && TipsMatch(b, log) && k in a
    ensures k in b && a[k].0 <= b[k].0
  {
    assert log[a[k].1].actor == k;
  }

  lemma TipsUnique(log: Log, a: map<ActorId, (u64, OpId)>, b: map<ActorId, (u64, OpId)>)
    requires ForkFree(log) && TipsMatch(a, log) && TipsMatch(b, log)
    ensures a == b
  {
    forall k | k in a || k in b
      ensures k in a && k in b && a[k] == b[k]
    {
      if k in a {
        TipBounded(log, a, b, k);
      }
      TipBounded(log, b, a, k);
      TipBounded(log, a, b, k);
      var x, y := a[k].1, b[k].1;
      assert log[x].actor == log[y].actor && log[x].pos == log[y].pos;
    }
  }

  lemma IndexUnique(log: Log, a: map<(ActorId, u64), OpId>, b: map<(ActorId, u64), OpId>)
    requires IndexMatches(a, log) && IndexMatches(b, log)
    ensures a == b
  {
    forall k | k in a || k in b
      ensures k in a && k in b && a[k] == b[k]
    {
      if k in a {
        assert k == (log[a[k]].actor, log[a[k]].pos);
      }
      if k in b {
        assert k == (log[b[k]].actor, log[b[k]].pos);
      }
    }
  }

  lemma ChildrenWithin(log: Log, a: map<OpId, set<OpId>>, b: map<OpId, set<OpId>>, d: OpId)
    requires ChildrenMatch(a, log) && ChildrenMatch(b, log) && d in a
    ensures d in b && a[d] <= b[d]
  {
    var c :| c in a[d];
    assert d in log[c].deps;
    forall x | x in a[d]
      ensures x in b[d]
    {
      assert d in log[x].deps;
    }
  }

  lemma ChildrenUnique(log: Log, a: map<OpId, set<OpId>>, b: map<OpId, set<OpId>>)
    requires ChildrenMatch(a, log) && ChildrenMatch(b, log)
    ensures a == b
  {
    forall d | d in a || d in b
      ensures d in a && d in b && a[d] == b[d]
    {
      if d in a {
        ChildrenWithin(log, a, b, d);
      }
      ChildrenWithin(log, b, a, d);
      ChildrenWithin(log, a, b, d);
    }
  }

  lemma HeadsUnique(log: Log, a: set<OpId>, b: set<OpId>)
    requires HeadsMatch(a, log) && HeadsMatch(b, log)
    ensures a == b
  {
  }

  lemma StateMatchUnique(log: Log, a: Option<TopicState>, b: Option<TopicState>)
    requires StateMatches(a, log) && StateMatches(b, log)
    ensures a == b
  {
    if a.Some? && b.Some? {
      StateUnique(log, log.Keys, a.value, b.value);
    }
  }

  lemma IndexesUnique(a: View, b: View, log: Log)
    requires ForkFree(log) && IndexesMatch(a, log) && IndexesMatch(b, log)
    ensures a.index == b.index && a.tips == b.tips && a.children == b.children
    ensures a.heads == b.heads && a.maxGen == b.maxGen
  {
    hide IndexMatches, TipsMatch, ChildrenMatch, HeadsMatch;
    IndexUnique(log, a.index, b.index);
    TipsUnique(log, a.tips, b.tips);
    ChildrenUnique(log, a.children, b.children);
    HeadsUnique(log, a.heads, b.heads);
  }

  lemma MetaUnique(log: Log, a: map<OpId, Meta>, b: map<OpId, Meta>)
    requires Closed(log) && MetasMatch(a, log) && MetasMatch(b, log)
    requires a.Keys == log.Keys == b.Keys
    ensures a == b
  {
    forall id | id in log
      ensures a[id] == b[id]
    {
      ClockUnique(log, Below(log, log[id].deps), a[id].clock, b[id].clock);
    }
  }

  /**
   Two undamaged stores of one history are identical: heads, members, policy, winning
   controls, actor tips and every observed clock.
   */
  lemma StoreIsFunctionOfHistory(a: View, b: View, log: Log)
    requires Represents(a, log) && Represents(b, log) && Complete(a, log) && Complete(b, log)
    ensures a == b
  {
    hide IndexesMatch, MetasMatch, StateMatches;
    assert a.ops == b.ops;
    MetaUnique(log, a.meta, b.meta);
    IndexesUnique(a, b, log);
    StateMatchUnique(log, a.state, b.state);
  }

  // ---- admitting and refilling one operation ----

  function WithChild(children: map<OpId, set<OpId>>, deps: set<OpId>, child: OpId): map<OpId, set<OpId>> {
    map d | d in children.Keys + deps ::
      (if d in children then children[d] else {}) + (if d in deps then {child} else {})
  }

  function HeadsAfter(heads: set<OpId>, op: Op): set<OpId> {
    heads - op.deps + {op.id}
  }

  /** The topic state once `op` joined, if the topic can take it. */
  function StateAfter(state: Option<TopicState>, op: Op): Option<TopicState> {
    match op.payload
    case Genesis(_, _, _) => Some(InitialState(op))
    case Event(_) => state
    case Change(_) => if state.Some? then Some(ApplyControl(state.value, op)) else None
  }

  /** The view after admitting `op` with metadata `m`. */
  function Admit(v: View, op: Op, m: Meta): View {
    View(
      v.ops[op.id := op],
      v.meta[op.id := m],
      v.index[(op.actor, op.pos) := op.id],
      v.tips[op.actor := (op.pos, op.id)],
      WithChild(v.children, op.deps, op.id),
      HeadsAfter(v.heads, op),
      Max(v.maxGen, op.gen),
      StateAfter(v.state, op))
  }

  /** A refill rewrites records only: no head, tip, index entry or topic state changes. */
  function Refill(v: View, op: Op, m: Meta): View {
    v.(ops := v.ops[op.id := op], meta := v.meta[op.id := m])
  }

  lemma MetaFrame(log: Log, more: Log, m: Meta)
    requires Closed(log) && Closed(more) && Extends(log, more)
    requires m.id in log && MetaMatches(log, m)
    ensures m.id in more && MetaMatches(more, m)
  {
    BelowFrame(log, more, log[m.id].deps);
    ClockFrame(log, more, Below(log, log[m.id].deps), m.clock);
  }

  lemma MetasGrow(v: View, log: Log, op: Op, m: Meta)
    requires Closed(log) && MetasMatch(v.meta, log)
    requires op.id !in log && Closed(log[op.id := op])
    requires m.id == op.id && MetaMatches(log[op.id := op], m)
    ensures MetasMatch(v.meta[op.id := m], log[op.id := op])
  {
    hide MetaMatches, Closed;
    var more := log[op.id := op];
    forall id | id in v.meta
      ensures MetaMatches(more, v.meta[id])
    {
      MetaFrame(log, more, v.meta[id]);
    }
  }

  /** The next position of an actor follows its tip. */
  ghost predicate FollowsTip(tips: map<ActorId, (u64, OpId)>, op: Op) {
    if op.actor in tips then
      op.pos as int == tips[op.actor].0 as int + 1 && op.prev == Some(tips[op.actor].1)
    else
      op.pos == 1 && op.prev == None
  }

  lemma TipsGrow(tips: map<ActorId, (u64, OpId)>, log: Log, op: Op)
    requires TipsMatch(tips, log) && op.id !in log && FollowsTip(tips, op)
    ensures TipsMatch(tips[op.actor := (op.pos, op.id)], log[op.id := op])
  {
  }

  lemma IndexGrows(index: map<(ActorId, u64), OpId>, log: Log, op: Op)
    requires IndexMatches(index, log) && op.id !in log && PositionFree(log, op)
    ensures IndexMatches(index[(op.actor, op.pos) := op.id], log[op.id := op])
  {
  }

  lemma ChildrenGrow(children: map<OpId, set<OpId>>, log: Log, op: Op)
    requires ChildrenMatch(children, log) && op.id !in log
    ensures ChildrenMatch(WithChild(children, op.deps, op.id), log[op.id := op])
  {
  }

  lemma HeadsGrow(heads: set<OpId>, log: Log, op: Op)
    requires Closed(log) && HeadsMatch(heads, log) && op.id !in log && op.deps <= log.Keys
    ensures HeadsMatch(HeadsAfter(heads, op), log[op.id := op])
  {
    var more := log[op.id := op];
    forall x | x in more && x !in HeadsAfter(heads, op)
      ensures exists y :: y in more && x in more[y].deps
    {
      if x in op.deps {
        assert x in more[op.id].deps;
      } else {
        assert x !in heads;
        var y :| y in log && x in log[y].deps;
        assert x in more[y].deps;
      }
    }
  }

  lemma MaxGenGrows(maxGen: u64, log: Log, op: Op)
    requires MaxGenMatches(maxGen, log) && op.id !in log
    ensures MaxGenMatches(Max(maxGen, op.gen), log[op.id := op])
  {
    var more := log[op.id := op];
    if op.gen < maxGen {
      var id :| id in log && log[id].gen == maxGen;
      assert more[id].gen == maxGen;
    } else {
      assert more[op.id].gen == op.gen;
    }
  }

  lemma StateGrows(state: Option<TopicState>, log: Log, op: Op)
    requires Good(log) && StateMatches(state, log) && op.id !in log && op.deps <= log.Keys
    requires Good(log[op.id := op])
    ensures StateMatches(StateAfter(state, op), log[op.id := op])
  {
    var more := log[op.id := op];
    assert more.Keys == log.Keys + {op.id};
    if op.payload.Genesis? {
      OnlyGenesis(log, op);
      GenesisState(more, op.id);
    } else {
      OnGenesis(log, op);
      StateFrame(log, more, log.Keys, state.value);
      if op.payload.Change? {
        ControlState(more, log.Keys, state.value, op.id);
      } else {
        SameControls(more, log.Keys, more.Keys, state.value);
      }
    }
  }

  /** A genesis can only come first. */
  lemma OnlyGenesis(log: Log, op: Op)
    requires Good(log) && op.id !in log && op.payload.Genesis? && Good(log[op.id := op])
    ensures log == map[]
  {
    var more := log[op.id := op];
    forall x | x in log
      ensures !log[x].payload.Genesis?
    {
      assert more[x] == log[x] && more[op.id] == op;
    }
    if log != map[] {
      var x :| x in log;
      assert DownClosed(log, log.Keys);
      var g := GenesisBelow(log, log.Keys, x);
      assert false;
    }
  }

  lemma OnGenesis(log: Log, op: Op)
    requires Closed(log) && op.id !in log && !op.payload.Genesis? && op.deps <= log.Keys
    requires Good(log[op.id := op])
    ensures op.deps != {} && log != map[]
  {
    var more := log[op.id := op];
    assert ValidAt(more, more[op.id]);
    var st :| IsState(more, Below(more, op.deps), st) && Permits(st, op);
    assert st.genesis in Below(more, op.deps);
  }

  lemma IndexesGrow(v: View, log: Log, op: Op, m: Meta)
    requires Closed(log) && IndexesMatch(v, log) && op.id !in log && op.deps <= log.Keys
    requires FollowsTip(v.tips, op) && PositionFree(log, op)
    ensures IndexesMatch(Admit(v, op, m), log[op.id := op])
  {
    hide IndexMatches, TipsMatch, ChildrenMatch, HeadsMatch, MaxGenMatches, PositionFree, FollowsTip, Closed;
    IndexGrows(v.index, log, op);
    TipsGrow(v.tips, log, op);
    ChildrenGrow(v.children, log, op);
    HeadsGrow(v.heads, log, op);
    MaxGenGrows(v.maxGen, log, op);
  }

  /** Admitting an operation keeps the store invariant, for the history grown by it. */
  lemma AdmitKeeps(v: View, log: Log, op: Op, m: Meta)
    requires Represents(v, log) && op.id !in log && op.deps <= log.Keys
    requires Good(log[op.id := op]) && FollowsTip(v.tips, op)
    requires m.id == op.id && MetaMatches(log[op.id := op], m)
    ensures Represents(Admit(v, op, m), log[op.id := op])
  {
    hide IndexesMatch, MetasMatch, StateMatches, FollowsTip, Admissible, MetaMatches;
    GoodPart(log, log[op.id := op], op);
    assert PositionFree(log, op) by { AdmissibleFree(log, op); }
    IndexesGrow(v, log, op, m);
    MetasGrow(v, log, op, m);
    StateGrows(v.state, log, op);
  }

  lemma AdmissibleFree(log: Log, op: Op)
    requires Closed(log) && op.deps <= log.Keys && Admissible(log, op)
    ensures PositionFree(log, op)
  {
  }

  lemma RefillKeeps(v: View, log: Log, op: Op, m: Meta)
    requires Represents(v, log) && op.id in log && log[op.id] == op
    requires m.id == op.id && MetaMatches(log, m)
    ensures Represents(Refill(v, op, m), log)
  {
    hide IndexesMatch, StateMatches, Good, MetaMatches;
    assert IndexesMatch(Refill(v, op, m), log) by { SameIndexes(v, log, op, m); }
  }

  lemma SameIndexes(v: View, log: Log, op: Op, m: Meta)
    requires IndexesMatch(v, log)
    ensures IndexesMatch(Refill(v, op, m), log)
  {
    hide IndexMatches, TipsMatch, ChildrenMatch, HeadsMatch, MaxGenMatches;
  }
}
