/**
 Colliding topic starts: which genesis a replica settles on, and what a rejected genesis
 takes with it.
 */
module Genesis {
  import opened Prelude
  import opened Dag
  import opened Membership
  import opened Validity
  import opened Store
  import opened Projection
  import opened Oplog
  import Topology

  predicate IsStructuralGenesis(op: Op) {
    op.payload.Genesis? && op.pos == 1 && op.prev.None? && op.deps == {}
  }

  // ---- what a rejected genesis takes with it ----

  /** A chain of operations of the batch, each depending on the one before, from `rejected`. */
  ghost predicate Lineage(ops: seq<Op>, rejected: OpId, path: seq<OpId>) {
    && path != []
    && path[0] == rejected
    && (forall i :: 0 <= i < |path| - 1 ==> DependsOn(ops, path[i + 1], path[i]))
  }

  ghost predicate DependsOn(ops: seq<Op>, x: OpId, d: OpId) {
    exists op :: op in ops && op.id == x && d in op.deps
  }

  /** `x` is the rejected id or descends from it through the batch. */
  ghost predicate Tainted(ops: seq<Op>, rejected: OpId, x: OpId) {
    exists path :: Lineage(ops, rejected, path) && path[|path| - 1] == x
  }

  lemma TaintedSelf(ops: seq<Op>, rejected: OpId)
    ensures Tainted(ops, rejected, rejected)
  {
    var path := [rejected];
    assert Lineage(ops, rejected, path) && path[|path| - 1] == rejected;
  }

  lemma TaintedChild(ops: seq<Op>, rejected: OpId, d: OpId, x: OpId)
    requires Tainted(ops, rejected, d) && DependsOn(ops, x, d)
    ensures Tainted(ops, rejected, x)
  {
    hide DependsOn;
    var path :| Lineage(ops, rejected, path) && path[|path| - 1] == d;
    var longer := path + [x];
    assert Lineage(ops, rejected, longer) && longer[|longer| - 1] == x;
  }

  lemma {:induction false} TaintedWithin(ops: seq<Op>, rejected: OpId, dropped: set<OpId>, path: seq<OpId>)
    requires rejected in dropped && Lineage(ops, rejected, path)
    requires forall d <- dropped, x :: DependsOn(ops, x, d) ==> x in dropped
    ensures path[|path| - 1] in dropped
  {
    hide DependsOn;
    if |path| > 1 {
      var init := path[..|path| - 1];
      assert Lineage(ops, rejected, init);
      TaintedWithin(ops, rejected, dropped, init);
      assert DependsOn(ops, path[|path| - 1], init[|init| - 1]);
    }
  }

  type Children = map<OpId, set<OpId>>

  function Kids(children: Children, d: OpId): set<OpId> {
    if d in children then children[d] else {}
  }

  /** Which operations of the batch name each id. */
  method ChildrenOf(ops: seq<Op>) returns (children: Children)
    ensures forall d, x {:trigger x in Kids(children, d)} :: x in Kids(children, d) <==> DependsOn(ops, x, d)
  {
    children := map[];
    for i := 0 to |ops|
      invariant forall d, x {:trigger x in Kids(children, d)} :: x in Kids(children, d) <==> DependsOn(ops[..i], x, d)
    {
      var op := ops[i];
      ghost var before := children;
      children := map d | d in children.Keys + op.deps ::
        Kids(children, d) + if d in op.deps then {op.id} else {};
      forall d, x
        ensures x in Kids(children, d) <==> DependsOn(ops[..i + 1], x, d)
      {
        DependsOnNext(ops, i, x, d);
        assert x in Kids(before, d) <==> DependsOn(ops[..i], x, d);
      }
    }
    assert ops[..|ops|] == ops;
  }

  lemma DependsOnNext(ops: seq<Op>, i: nat, x: OpId, d: OpId)
    requires i < |ops|
    ensures DependsOn(ops[..i + 1], x, d) <==> DependsOn(ops[..i], x, d) || (ops[i].id == x && d in ops[i].deps)
  {
  }

  /** Everything found is tainted, and what a found id taints is found or still pending. */
  ghost predicate FoundSoFar(ops: seq<Op>, rejected: OpId, found: set<OpId>, pending: set<OpId>) {
    && rejected in found
    && pending <= found
    && (forall x <- found :: Tainted(ops, rejected, x))
    && (forall d <- found - pending, x :: DependsOn(ops, x, d) ==> x in found)
  }

  /** What a rejected id takes with it. */
  ghost function TaintedIds(ops: seq<Op>, rejected: OpId): set<OpId> {
    {rejected} + set op <- ops | Tainted(ops, rejected, op.id) :: op.id
  }

  lemma TaintedIdsHold(ops: seq<Op>, rejected: OpId, x: OpId)
    ensures x in TaintedIds(ops, rejected) <==> Tainted(ops, rejected, x)
  {
    TaintedSelf(ops, rejected);
    if Tainted(ops, rejected, x) && x != rejected {
      var path :| Lineage(ops, rejected, path) && path[|path| - 1] == x;
      assert DependsOn(ops, x, path[|path| - 2]);
    }
  }

  lemma FoundAll(ops: seq<Op>, rejected: OpId, found: set<OpId>)
    requires FoundSoFar(ops, rejected, found, {})
    ensures found == TaintedIds(ops, rejected)
  {
    hide DependsOn, TaintedIds;
    forall x: OpId
      ensures x in found <==> x in TaintedIds(ops, rejected)
    {
      TaintedIdsHold(ops, rejected, x);
      if Tainted(ops, rejected, x) {
        var path :| Lineage(ops, rejected, path) && path[|path| - 1] == x;
        TaintedWithin(ops, rejected, found, path);
      }
    }
  }

  function Without(ops: seq<Op>, dropped: set<OpId>): (kept: seq<Op>) {
    if ops == [] then []
    else Without(ops[..|ops| - 1], dropped) + if ops[|ops| - 1].id in dropped then [] else [ops[|ops| - 1]]
  }

  lemma {:induction false} WithoutHolds(ops: seq<Op>, dropped: set<OpId>, op: Op)
    ensures op in Without(ops, dropped) <==> op in ops && op.id !in dropped
  {
    if ops != [] {
      WithoutHolds(ops[..|ops| - 1], dropped, op);
      assert ops == ops[..|ops| - 1] + [ops[|ops| - 1]];
    }
  }

  /** `kept` is the part of `ops` at the places `at`, in order, and every other operation is dropped. */
  ghost predicate KeptAt(ops: seq<Op>, dropped: set<OpId>, kept: seq<Op>, at: seq<nat>) {
    && |at| == |kept|
    && (forall i :: 0 <= i < |at| ==> at[i] < |ops| && ops[at[i]] == kept[i] && kept[i].id !in dropped)
    && (forall i, j :: 0 <= i < j < |at| ==> at[i] < at[j])
    && (forall k :: 0 <= k < |ops| && ops[k].id !in dropped ==> k in at)
  }

  lemma {:induction false} WithoutKeepsOrder(ops: seq<Op>, dropped: set<OpId>) returns (at: seq<nat>)
    ensures KeptAt(ops, dropped, Without(ops, dropped), at)
  {
    hide KeptAt;
    at := [];
    if ops == [] {
      KeptNone(dropped);
    } else {
      var n := |ops| - 1;
      at := WithoutKeepsOrder(ops[..n], dropped);
      KeptNext(ops, dropped, Without(ops[..n], dropped), at);
      at := if ops[n].id in dropped then at else at + [n];
    }
  }

  lemma KeptNone(dropped: set<OpId>)
    ensures KeptAt([], dropped, [], [])
  {
  }

  lemma KeptNext(ops: seq<Op>, dropped: set<OpId>, kept: seq<Op>, at: seq<nat>)
    requires ops != [] && KeptAt(ops[..|ops| - 1], dropped, kept, at)
    ensures
      var n := |ops| - 1;
      if ops[n].id in dropped then KeptAt(ops, dropped, kept + [], at)
      else KeptAt(ops, dropped, kept + [ops[n]], at + [n])
  {
    var n := |ops| - 1;
    assert kept + [] == kept;
    forall k | 0 <= k < n && ops[k].id !in dropped
      ensures k in at
    {
      assert ops[..n][k] == ops[k];
    }
    if ops[n].id !in dropped {
      var more := at + [n];
      forall k | 0 <= k < |ops| && ops[k].id !in dropped
        ensures k in more
      {
        assert k == n ==> more[|at|] == k;
      }
    }
  }

  /** Drops the rejected id and exactly what descends from it in the batch; the rest stays in order. */
  method WithoutDescendants(ops: seq<Op>, rejected: OpId) returns (kept: seq<Op>, ghost at: seq<nat>)
    ensures kept == Without(ops, TaintedIds(ops, rejected)) && KeptAt(ops, TaintedIds(ops, rejected), kept, at)
  {
    hide DependsOn, Tainted, FoundSoFar, TaintedIds, Without, KeptAt;
    var children := ChildrenOf(ops);
    var found, pending := {rejected}, {rejected};
    assert FoundSoFar(ops, rejected, found, pending) by { FoundStart(ops, rejected); }
    ghost var universe := {rejected} + set op <- ops :: op.id;
    var left := children;
    while pending != {}
      invariant pending <= found <= universe
      invariant FoundSoFar(ops, rejected, found, pending)
      invariant forall d :: d !in found || d in pending ==> Kids(left, d) == Kids(children, d)
      decreases universe - found, pending
    {
      var id :| id in pending;
      var more := Kids(left, id) - found;
      left := left - {id};
      FoundStep(ops, rejected, found, pending, id, more);
      found, pending := found + more, pending - {id} + more;
    }
    FoundAll(ops, rejected, found);
    kept := Without(ops, found);
    at := WithoutKeepsOrder(ops, found);
  }

  lemma FoundStart(ops: seq<Op>, rejected: OpId)
    ensures FoundSoFar(ops, rejected, {rejected}, {rejected})
  {
    TaintedSelf(ops, rejected);
  }

  lemma FoundStep(ops: seq<Op>, rejected: OpId, found: set<OpId>, pending: set<OpId>, id: OpId, more: set<OpId>)
    requires FoundSoFar(ops, rejected, found, pending) && id in pending
    requires forall x :: x in more <==> DependsOn(ops, x, id) && x !in found
    ensures FoundSoFar(ops, rejected, found + more, pending - {id} + more)
    ensures more <= set op <- ops :: op.id
  {
    hide Tainted;
    forall x | x in more
      ensures Tainted(ops, rejected, x)
    {
      TaintedChild(ops, rejected, id, x);
    }
  }

  // ---- the tie-break ----

  /** The first operation of the batch that starts a topic: a genesis at position one that stands on nothing. */
  ghost predicate FirstStart(ops: seq<Op>, i: nat)
    requires i < |ops|
  {
    && Starting(ops[i])
    && forall j :: 0 <= j < i ==> !Starting(ops[j])
  }

  ghost predicate Starting(op: Op) {
    op.payload.Genesis? && op.pos == 1 && op.prev == None && op.deps == {}
  }

  function FindGenesis(ops: seq<Op>): (g: Option<Op>)
    ensures g.Some? ==> g.value in ops && IsStructuralGenesis(g.value)
    ensures g.None? ==> forall op <- ops :: !IsStructuralGenesis(op)
  {
    if ops == [] then None
    else if IsStructuralGenesis(ops[0]) then Some(ops[0])
    else FindGenesis(ops[1..])
  }

  lemma {:induction false} FindsFirstStart(ops: seq<Op>, i: nat)
    requires i < |ops| && FirstStart(ops, i)
    ensures FindGenesis(ops) == Some(ops[i])
  {
    if i > 0 {
      assert !Starting(ops[0]);
      forall j | 0 <= j < i - 1
        ensures !Starting(ops[1..][j])
      {
        assert ops[1..][j] == ops[j + 1];
      }
      FindsFirstStart(ops[1..], i - 1);
    }
  }

  /** Both starts name the same initial peers, and the candidate is by one of them. */
  predicate SamePeers(record: Option<Op>, candidate: Op) {
    && record.Some? && record.value.payload.Genesis? && candidate.payload.Genesis?
    && candidate.payload.initialPeers == record.value.payload.initialPeers
    && candidate.author in candidate.payload.initialPeers
  }

  function RecordOf(v: View, id: OpId): Option<Op> {
    if id in v.ops then Some(v.ops[id]) else None
  }

  /** The genesis a replica stands on. */
  function StandsOn(v: View): Option<OpId> {
    if v.state.Some? then Some(v.state.value.genesis) else None
  }

  /** The smaller start of the same initial peers wins against the one stood on. */
  predicate Replaces(v: View, g: Op) {
    v.state.Some? && g.id < v.state.value.genesis && SamePeers(RecordOf(v, v.state.value.genesis), g)
  }

  predicate Rejects(v: View, g: Op) {
    v.state.Some? && v.state.value.genesis != g.id && !Replaces(v, g)
  }

  datatype Resolution = Resolution(ops: seq<Op>, reset: bool, rejected: Option<OpId>)

  /** What to admit of a batch, whether the local topic gives way, and which genesis lost. */
  method ResolveCollision(ops: seq<Op>, v: View) returns (r: Resolution)
    ensures
      var g := FindGenesis(ops);
      r == if g.Some? && Rejects(v, g.value)
           then Resolution(Without(ops, TaintedIds(ops, g.value.id)), false, Some(g.value.id))
           else Resolution(ops, g.Some? && Replaces(v, g.value), None)
  {
    hide Without, FindGenesis, TaintedIds;
    var g := FindGenesis(ops);
    if g.None? || v.state.None? || v.state.value.genesis == g.value.id {
      return Resolution(ops, false, None);
    }
    if g.value.id < v.state.value.genesis {
      if !SamePeers(RecordOf(v, v.state.value.genesis), g.value) {
        var kept, _ := WithoutDescendants(ops, g.value.id);
        return Resolution(kept, false, Some(g.value.id));
      }
      return Resolution(ops, true, None);
    }
    var kept, _ := WithoutDescendants(ops, g.value.id);
    return Resolution(kept, false, Some(g.value.id));
  }

  /** The genesis a replica stands on after a batch. */
  function Settled(v: View, g: Option<Op>): Option<OpId> {
    if g.None? || Rejects(v, g.value) then StandsOn(v) else Some(g.value.id)
  }

  ghost predicate OneStart(ops: seq<Op>) {
    forall a <- ops, b <- ops :: IsStructuralGenesis(a) && IsStructuralGenesis(b) ==> a == b
  }

  /** A sound store stands on the genesis of its history, and on none when that is empty. */
  lemma StandsOnGenesis(v: View, log: Log, id: OpId)
    requires Represents(v, log) && id in log && log[id].payload.Genesis?
    ensures StandsOn(v) == Some(id)
  {
    hide Below, MetasMatch, OpsMatch, IndexesMatch, ForkFree, Closed;
  }

  lemma StandsOnNothing(v: View, log: Log)
    requires Represents(v, log) && forall id <- log :: !log[id].payload.Genesis?
    ensures StandsOn(v) == None
  {
  }

  lemma StandsInHistory(v: View, log: Log)
    requires Represents(v, log) && v.state.Some?
    ensures v.state.value.genesis in log && log[v.state.value.genesis].payload.Genesis?
  {
    hide Below, MetasMatch, OpsMatch, IndexesMatch, ForkFree, Closed;
  }

  lemma GenesisIsStructural(v: View, log: Log, id: OpId)
    requires Represents(v, log) && id in log && log[id].payload.Genesis?
    ensures IsStructuralGenesis(log[id])
  {
    hide Below, MetasMatch, OpsMatch, IndexesMatch, ForkFree, OneGenesis, StateMatches;
    assert ValidAt(log, log[id]);
  }

  /** The history afterwards is of what it held and of the batch. */
  ghost predicate Taken(base: Log, ops: seq<Op>, log: Log) {
    forall id <- log :: (id in base && log[id] == base[id]) || log[id] in ops
  }

  /** Where a committed batch leaves the replica. */
  lemma Lands(v: View, base: Log, ops: seq<Op>, kept: seq<Op>, reset: bool, v': View, log': Log, accepted: set<OpId>)
    requires Represents(v, base) && Represents(v', log') && OneStart(ops)
    requires Grew(if reset then map[] else base, kept, log', accepted)
    requires forall op <- kept :: op in ops
    requires
      var g := FindGenesis(ops);
      if g.Some? && Rejects(v, g.value) then !reset
      else kept == ops && reset == (g.Some? && Replaces(v, g.value))
    ensures StandsOn(v') == Settled(v, FindGenesis(ops))
  {
    hide Represents, Grew, FindGenesis, Settled;
    var g := FindGenesis(ops);
    if !reset && v.state.Some? {
      StandsInHistory(v, base);
      GrewKeeps(base, kept, log', accepted, v.state.value.genesis);
      StandsOnGenesis(v', log', v.state.value.genesis);
    } else if g.Some? {
      GrewRoots(if reset then map[] else base, kept, log', accepted, g.value);
      StandsOnGenesis(v', log', g.value.id);
    } else {
      NoStart(v, base, ops, v', log', accepted);
    }
    assert StandsOn(v') == Settled(v, g) by { SettledMeans(v, g); }
  }

  lemma SettledMeans(v: View, g: Option<Op>)
    ensures Settled(v, g) == if g.None? || Rejects(v, g.value) then StandsOn(v) else Some(g.value.id)
  {
  }

  lemma GrewKeeps(base: Log, ops: seq<Op>, log: Log, accepted: set<OpId>, id: OpId)
    requires Grew(base, ops, log, accepted) && id in base
    ensures id in log && log[id] == base[id]
  {
  }

  lemma GrewRoots(base: Log, ops: seq<Op>, log: Log, accepted: set<OpId>, op: Op)
    requires Grew(base, ops, log, accepted) && op in ops && op.deps == {}
    ensures op.id in log && log[op.id] == op
  {
  }

  lemma NoStart(v: View, base: Log, ops: seq<Op>, v': View, log': Log, accepted: set<OpId>)
    requires Represents(v, base) && Represents(v', log') && v.state.None?
    requires Grew(base, ops, log', accepted) && forall op <- ops :: !IsStructuralGenesis(op)
    ensures StandsOn(v') == None
  {
    hide Good, MetasMatch, OpsMatch, IndexesMatch;
    assert base == map[];
    forall id | id in log'
      ensures !log'[id].payload.Genesis?
    {
      var op :| op in ops && op.id == id;
      if log'[id].payload.Genesis? {
        GenesisIsStructural(v', log', id);
      }
    }
    StandsOnNothing(v', log');
  }

  /** The history a batch calls for: a lost start goes with its descendants, a won one starts afresh. */
  ghost function Due(v: View, log: Log, ops: seq<Op>): Log {
    var g := FindGenesis(ops);
    if g.Some? && Rejects(v, g.value) then Joined(log, Without(ops, TaintedIds(ops, g.value.id)))
    else Joined(if g.Some? && Replaces(v, g.value) then map[] else log, ops)
  }

  /** A batch that brings a topic start brings a good history by itself. */
  ghost predicate StartsWhole(ops: seq<Op>) {
    FindGenesis(ops).Some? ==> Good(Joined(map[], ops))
  }

  /**
   One received batch with at most one topic start: the collision is resolved and the rest admitted.
   On an undamaged store the batch commits whenever the history it calls for is good, and a start
   that is whole by itself settles the replica whatever else becomes of its batch. A committed batch
   leaves the replica on the settled genesis; of a lost genesis nothing that descends from it is taken;
   a won one leaves only operations of the batch.
   */
  method Receive(node: Oplog, ops: seq<Op>, refuses: Op -> bool) returns (r: Result<set<OpId>, Error>)
    requires node.Valid() && AuthenticBatch(node.log, ops) && OneStart(ops)
    modifies node
    ensures node.Valid()
    ensures r.Err? ==> node.view == old(node.view) && node.log == old(node.log)
    ensures
      var due := Due(old(node.view), old(node.log), ops);
      Complete(old(node.view), old(node.log)) && Good(due) ==> r.Ok? && node.log == due
    ensures
      r.Ok? || (Complete(old(node.view), old(node.log)) && StartsWhole(ops)) ==>
        StandsOn(node.view) == Settled(old(node.view), FindGenesis(ops))
    ensures r.Ok? && Complete(old(node.view), old(node.log)) ==> Complete(node.view, node.log)
    ensures r.Ok? ==> Taken(old(node.log), ops, node.log)
    ensures
      var g := FindGenesis(ops);
      r.Ok? && g.Some? && Rejects(old(node.view), g.value) ==>
        forall id <- node.log :: id !in old(node.log) ==> !Tainted(ops, g.value.id, id)
  {
    hide Represents, Tainted, TaintedIds, Without, FindGenesis, Grew, Settled, ProjectionsMatch, AuthenticBatch;
    hide Replaces, StandsOn, Good, Joined, IsUnion, Complete, StartsWhole, Mends;
    var res := ResolveCollision(ops, node.view);
    ghost var (v, base, g) := (node.view, node.log, FindGenesis(ops));
    ghost var dropped := if g.Some? && Rejects(v, g.value) then TaintedIds(ops, g.value.id) else {};
    ghost var from := if res.reset then map[] else base;
    KeptAuthentic(node.log, ops, res.ops, dropped);
    KeptJoins(node.log, res.ops, res.reset);
    EmptyIsComplete();
    CompleteMends(EmptyView(), map[], Topology.Emitted(res.ops));
    if Complete(v, base) {
      CompleteMends(v, base, Topology.Emitted(res.ops));
    }
    var pending;
    r, pending := node.AdmitBatch(res.ops, res.reset, refuses, Joined(from, res.ops));
    if r.Ok? {
      Lands(v, base, ops, res.ops, res.reset, node.view, node.log, r.value);
      GrewFrom(from, ops, res.ops, node.log, r.value, dropped);
      if g.Some? && Rejects(v, g.value) {
        forall id | id in node.log && id !in base
          ensures !Tainted(ops, g.value.id, id)
        {
          TaintedIdsHold(ops, g.value.id, id);
        }
      }
    } else if Complete(v, base) && StartsWhole(ops) {
      RefusedSettles(v, base, ops);
    }
  }

  lemma KeptJoins(log: Log, kept: seq<Op>, reset: bool)
    requires AuthenticBatch(log, kept)
    ensures
      var base := if reset then map[] else log;
      IsUnion(Joined(base, kept), base, kept)
  {
    hide IsUnion, Joined;
    JoinedIsUnion(if reset then map[] else log, kept);
  }

  /** A whole start is refused only where the replica keeps the genesis it stands on. */
  lemma RefusedSettles(v: View, log: Log, ops: seq<Op>)
    requires Represents(v, log) && StartsWhole(ops) && !Good(Due(v, log, ops))
    ensures StandsOn(v) == Settled(v, FindGenesis(ops))
  {
    hide Good, Joined, Without, TaintedIds, FindGenesis, Represents;
    if v.state.None? {
      NoStateNoHistory(v, log);
    }
  }

  lemma NoStateNoHistory(v: View, log: Log)
    requires Represents(v, log) && v.state.None?
    ensures log == map[]
  {
    hide Good, MetasMatch, OpsMatch, IndexesMatch;
  }

  lemma KeptAuthentic(log: Log, ops: seq<Op>, kept: seq<Op>, dropped: set<OpId>)
    requires AuthenticBatch(log, ops) && (kept == ops || kept == Without(ops, dropped))
    ensures AuthenticBatch(log, kept) && forall op <- kept :: op in ops
    ensures kept == Without(ops, dropped) ==> forall op <- kept :: op.id !in dropped
  {
    hide Without;
    forall op | op in kept
      ensures op in ops && (kept == Without(ops, dropped) ==> op.id !in dropped)
    {
      WithoutHolds(ops, dropped, op);
    }
  }

  lemma GrewFrom(base: Log, ops: seq<Op>, kept: seq<Op>, log: Log, accepted: set<OpId>, dropped: set<OpId>)
    requires Grew(base, kept, log, accepted) && forall op <- kept :: op in ops
    ensures Taken(base, ops, log)
    ensures (forall op <- kept :: op.id !in dropped) ==> forall id <- log :: id !in base ==> id !in dropped
  {
  }

  // ---- whole runs ----

  predicate Eligible(first: Op, x: Op) {
    && first.payload.Genesis? && x.payload.Genesis?
    && x.payload.initialPeers == first.payload.initialPeers
    && x.author in x.payload.initialPeers
  }

  /** `id` is the least of the first genesis and the arrived ones eligible beside it. */
  ghost predicate IsLeast(arrived: seq<Op>, id: OpId) {
    && arrived != []
    && (id == arrived[0].id || exists x :: x in arrived && Eligible(arrived[0], x) && x.id == id)
    && id <= arrived[0].id
    && (forall x <- arrived :: Eligible(arrived[0], x) ==> id <= x.id)
  }

  /** The genesis a run has settled on is held, and its initial peers are those of the first start. */
  ghost predicate Stands(v: View, log: Log, arrived: seq<Op>) {
    match StandsOn(v)
    case None => arrived == []
    case Some(id) =>
      && IsLeast(arrived, id) && id in log && id in v.ops && v.ops[id] == log[id] && log[id].id == id
      && arrived[0].payload.Genesis? && log[id].payload.Genesis?
      && log[id].payload.initialPeers == arrived[0].payload.initialPeers
  }

  lemma LeastStep(v: View, log: Log, arrived: seq<Op>, g: Op, id: OpId)
    requires Stands(v, log, arrived) && IsStructuralGenesis(g) && Settled(v, Some(g)) == Some(id)
    ensures IsLeast(arrived + [g], id)
    ensures id == g.id ==>
      (arrived == [] || v.state.value.genesis == id || g.payload.initialPeers == arrived[0].payload.initialPeers)
    ensures id != g.id ==> arrived != []
  {
  }

  lemma HeldGenesis(v: View, log: Log)
    requires Represents(v, log) && Complete(v, log)
    ensures GenesisReadable(v, log)
  {
    hide Below, MetasMatch, IndexesMatch, Good;
    NamesKept(v, log);
  }

  /** The genesis the replica stands on can be read. */
  ghost predicate GenesisReadable(v: View, log: Log) {
    v.state.Some? ==>
      var id := v.state.value.genesis;
      id in log && id in v.ops && v.ops[id] == log[id] && log[id].payload.Genesis? && log[id].id == id
  }

  ghost predicate SameContent(log: Log, ops: seq<Op>, log': Log) {
    forall op <- ops :: (op.id in log ==> log[op.id] == op) && (op.id in log' ==> log'[op.id] == op)
  }

  lemma StandsStep(v: View, log: Log, arrived: seq<Op>, ops: seq<Op>, v': View, log': Log)
    requires Stands(v, log, arrived) && StandsOn(v') == Settled(v, FindGenesis(ops))
    requires GenesisReadable(v', log') && Taken(log, ops, log') && SameContent(log, ops, log')
    ensures
      var g := FindGenesis(ops);
      Stands(v', log', arrived + if g.Some? then [g.value] else [])
  {
    hide FindGenesis, IsLeast, Replaces;
    var g := FindGenesis(ops);
    assert arrived + [] == arrived;
    if g.Some? && StandsOn(v').Some? {
      LeastStep(v, log, arrived, g.value, StandsOn(v').value);
      assert (arrived + [g.value])[0] == if arrived == [] then g.value else arrived[0];
    }
  }

  /** The topic starts of batches that were committed, in order of arrival. */
  ghost function Starts(batches: seq<seq<Op>>, committed: seq<bool>): seq<Op>
    requires |batches| == |committed|
  {
    if batches == [] then []
    else
      var n := |batches| - 1;
      var g := FindGenesis(batches[n]);
      Starts(batches[..n], committed[..n]) + if committed[n] && g.Some? then [g.value] else []
  }

  /** The topic starts that arrived, committed or not. */
  ghost function Arrivals(batches: seq<seq<Op>>): (starts: seq<Op>) {
    if batches == [] then []
    else
      var n := |batches| - 1;
      var g := FindGenesis(batches[n]);
      Arrivals(batches[..n]) + if g.Some? then [g.value] else []
  }

  /** One identity, one content: every batch and the history agree with `world`. */
  ghost predicate Within(log: Log, batches: seq<seq<Op>>, world: Log) {
    && (forall id <- world :: world[id].id == id)
    && (forall id <- log :: id in world && log[id] == world[id])
    && (forall ops <- batches, op <- ops :: op.id in world && world[op.id] == op)
  }

  /** A replica stands on the least of the starts that count, on none without one. */
  ghost predicate SettledOn(v: View, starts: seq<Op>) {
    match StandsOn(v)
    case None => starts == []
    case Some(id) => IsLeast(starts, id)
  }

  /**
   Any run of batches with at most one topic start each, from a fresh replica: it ends on the least
   of the first start it took and the later ones that name the same initial peers, author among them.
   When every start arrives with a good history of its own, all arrived starts count.
   */
  method ReceiveAll(node: Oplog, batches: seq<seq<Op>>, refuses: Op -> bool, ghost world: Log)
    returns (committed: seq<bool>)
    requires node.Valid() && node.log == map[] && Complete(node.view, node.log)
    requires Within(node.log, batches, world) && forall ops <- batches :: OneStart(ops)
    modifies node
    ensures node.Valid() && Complete(node.view, node.log) && |committed| == |batches|
    ensures SettledOn(node.view, Starts(batches, committed))
    ensures (forall ops <- batches :: StartsWhole(ops)) ==> SettledOn(node.view, Arrivals(batches))
  {
    hide Represents, Complete, Stands, IsLeast, Starts, FindGenesis, Settled, OneStart, ProjectionsMatch, Tainted;
    hide Rejects, Within, AuthenticBatch, StandsOn, Arrivals, StartsWhole, Good, Joined, Due, Taken;
    committed := [];
    FreshStands(node.view, node.log);
    assert batches[..0] == [];
    ghost var whole := forall ops <- batches :: StartsWhole(ops);
    for n := 0 to |batches|
      invariant node.Valid() && |committed| == n && Complete(node.view, node.log)
      invariant Within(node.log, batches, world)
      invariant Stands(node.view, node.log, Starts(batches[..n], committed))
      invariant whole ==> Stands(node.view, node.log, Arrivals(batches[..n]))
    {
      var ops := batches[n];
      ghost var (v, log) := (node.view, node.log);
      WithinBatch(log, batches, world, ops);
      var r := Receive(node, ops, refuses);
      NamesKept(node.view, node.log);
      HeldGenesis(node.view, node.log);
      TakenNothing(log, ops);
      WithinStep(log, batches, world, ops, node.log);
      if r.Ok? {
        StandsStep(v, log, Starts(batches[..n], committed), ops, node.view, node.log);
      }
      if whole {
        StandsStep(v, log, Arrivals(batches[..n]), ops, node.view, node.log);
      }
      StartsStep(batches, n, committed, r.Ok?);
      assert Starts(batches[..n], committed) + [] == Starts(batches[..n], committed);
      committed := committed + [r.Ok?];
    }
    assert batches[..|batches|] == batches;
    StandsMeans(node.view, node.log, Starts(batches, committed));
    if whole {
      StandsMeans(node.view, node.log, Arrivals(batches));
    }
  }

  lemma TakenNothing(log: Log, ops: seq<Op>)
    ensures Taken(log, ops, log)
  {
  }

  lemma StartsStep(batches: seq<seq<Op>>, n: nat, committed: seq<bool>, ok: bool)
    requires n < |batches| && |committed| == n
    ensures
      var g := FindGenesis(batches[n]);
      && Starts(batches[..n + 1], committed + [ok])
           == Starts(batches[..n], committed) + (if ok && g.Some? then [g.value] else [])
      && Arrivals(batches[..n + 1]) == Arrivals(batches[..n]) + (if g.Some? then [g.value] else [])
  {
    var some := batches[..n + 1];
    assert some[..n] == batches[..n] && some[n] == batches[n] && |some| - 1 == n;
    assert (committed + [ok])[..n] == committed;
    LastStart(some, committed + [ok]);
  }

  /** The starts of some batches are those before the last, and the last one's. */
  lemma LastStart(batches: seq<seq<Op>>, committed: seq<bool>)
    requires |batches| == |committed| > 0
    ensures
      var n := |batches| - 1;
      var g := FindGenesis(batches[n]);
      && Starts(batches, committed)
           == Starts(batches[..n], committed[..n]) + (if committed[n] && g.Some? then [g.value] else [])
      && Arrivals(batches) == Arrivals(batches[..n]) + (if g.Some? then [g.value] else [])
  {
  }

  lemma FreshStands(v: View, log: Log)
    requires Represents(v, log) && log == map[]
    ensures Stands(v, log, Starts([], [])) && Stands(v, log, Arrivals([]))
  {
  }

  lemma WithinBatch(log: Log, batches: seq<seq<Op>>, world: Log, ops: seq<Op>)
    requires Within(log, batches, world) && ops in batches
    ensures AuthenticBatch(log, ops)
  {
  }

  lemma WithinStep(log: Log, batches: seq<seq<Op>>, world: Log, ops: seq<Op>, log': Log)
    requires Within(log, batches, world) && ops in batches && Taken(log, ops, log')
    requires forall id <- log' :: log'[id].id == id
    ensures Within(log', batches, world)
    ensures SameContent(log, ops, log')
  {
  }

  lemma NamesKept(v: View, log: Log)
    requires Represents(v, log)
    ensures forall id <- log :: log[id].id == id
  {
  }

  lemma StandsMeans(v: View, log: Log, arrived: seq<Op>)
    requires Stands(v, log, arrived)
    ensures SettledOn(v, arrived)
  {
  }

  lemma LeastAgree(a: seq<Op>, b: seq<Op>, x: View, y: View)
    requires SettledOn(x, a) && SettledOn(y, b)
    requires forall op :: op in a <==> op in b
    requires forall p <- a, q <- a :: Eligible(p, q)
    ensures StandsOn(x) == StandsOn(y)
  {
    assert a == [] <==> b == [] by {
      assert a != [] ==> a[0] in b;
      assert b != [] ==> b[0] in a;
    }
  }

  /** What a replica may be sent: at most one start in a batch, and each with a good history of its own. */
  ghost predicate Sendable(batches: seq<seq<Op>>, world: Log) {
    && Within(map[], batches, world)
    && (forall ops <- batches :: OneStart(ops) && StartsWhole(ops))
  }

  /**
   Two fresh replicas that are sent the same mutually eligible starts, in any order and among any
   other batches, stand on the same genesis: the least of those starts.
   */
  method ReplicasAgree(a: seq<seq<Op>>, b: seq<seq<Op>>, refuses: Op -> bool, ghost world: Log)
    returns (va: View, vb: View)
    requires Sendable(a, world) && Sendable(b, world)
    requires forall op :: op in Arrivals(a) <==> op in Arrivals(b)
    requires forall p <- Arrivals(a), q <- Arrivals(a) :: Eligible(p, q)
    ensures StandsOn(va) == StandsOn(vb) && SettledOn(va, Arrivals(a))
  {
    hide Within, OneStart, StartsWhole, Arrivals, SettledOn, StandsOn, Eligible, Represents, Complete;
    var left := new Oplog();
    var right := new Oplog();
    EmptyIsComplete();
    var _ := ReceiveAll(left, a, refuses, world);
    var _ := ReceiveAll(right, b, refuses, world);
    va, vb := left.view, right.view;
    LeastAgree(Arrivals(a), Arrivals(b), va, vb);
  }
}
