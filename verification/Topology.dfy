/**
 Linearisation of a batch: dependencies first, and among the operations that are
 ready the one with the smallest generation and id.
 */
module Topology {
  import opened Prelude
  import opened Dag

  type Batch = map<OpId, Op>

  predicate Before(a: Op, b: Op) {
    a.gen < b.gen || (a.gen == b.gen && a.id < b.id)
  }

  ghost predicate Named(batch: Batch) {
    forall id <- batch :: batch[id].id == id
  }

  /** The in-batch dependencies of `x` not emitted yet. */
  function Waiting(batch: Batch, emitted: set<OpId>, x: OpId): set<OpId>
    requires x in batch
  {
    batch[x].deps * batch.Keys - emitted
  }

  /** A set where every operation depends on another of the set: there is a cycle in it. */
  ghost predicate Knot(batch: Batch, knot: set<OpId>) {
    && knot != {}
    && knot <= batch.Keys
    && forall x {:trigger Tied(batch, knot, x)} :: x in knot ==> Tied(batch, knot, x)
  }

  ghost predicate Tied(batch: Batch, knot: set<OpId>, x: OpId) {
    x in batch && exists d :: d in knot && d in batch[x].deps
  }

  ghost predicate Cyclic(batch: Batch) {
    exists knot :: Knot(batch, knot)
  }

  /** Each id of `path` depends on the next, and the last on the first. */
  ghost predicate Cycle(batch: Batch, path: seq<OpId>) {
    && path != []
    && Descending(batch, path)
    && path[0] in batch[path[|path| - 1]].deps
  }

  ghost predicate Descending(batch: Batch, path: seq<OpId>) {
    && (forall i :: 0 <= i < |path| ==> path[i] in batch)
    && (forall i :: 0 <= i < |path| - 1 ==> path[i + 1] in batch[path[i]].deps)
  }

  /** A knot is walked along dependencies until an id comes back. */
  lemma {:induction false} KnotHasCycle(batch: Batch, knot: set<OpId>, path: seq<OpId>) returns (cycle: seq<OpId>)
    requires Knot(batch, knot) && path != [] && Descending(batch, path) && forall x <- path :: x in knot
    ensures Cycle(batch, cycle)
    decreases knot - set x <- path
  {
    var last := path[|path| - 1];
    assert Tied(batch, knot, last);
    var d :| d in knot && d in batch[last].deps;
    if d in path {
      var k :| 0 <= k < |path| && path[k] == d;
      cycle := path[k..];
    } else {
      assert d in knot - (set x <- path);
      cycle := KnotHasCycle(batch, knot, path + [d]);
    }
  }

  lemma CycleIsKnot(batch: Batch, path: seq<OpId>)
    requires Cycle(batch, path)
    ensures Knot(batch, set x <- path)
  {
    var knot := set x <- path;
    assert path[0] in knot;
    forall x | x in knot
      ensures Tied(batch, knot, x)
    {
      var i :| 0 <= i < |path| && path[i] == x;
      var next := if i + 1 < |path| then path[i + 1] else path[0];
      assert next in knot && next in batch[x].deps;
    }
  }

  /** A batch has a knot exactly when some dependency chain closes on itself. */
  lemma CyclicIsCycle(batch: Batch)
    ensures Cyclic(batch) <==> exists path :: Cycle(batch, path)
  {
    if knot :| Knot(batch, knot) {
      var x :| x in knot;
      var cycle := KnotHasCycle(batch, knot, [x]);
    }
    if path :| Cycle(batch, path) {
      CycleIsKnot(batch, path);
    }
  }

  /** The ids of the first operations of `out`. */
  function Emitted(out: seq<Op>): (s: set<OpId>) {
    set op <- out :: op.id
  }

  ghost predicate Ready(batch: Batch, emitted: set<OpId>, x: OpId)
    requires x in batch
  {
    x !in emitted && Waiting(batch, emitted, x) == {}
  }

  /** `last` is the least operation ready after `emitted`. */
  ghost predicate Next(batch: Batch, emitted: set<OpId>, last: Op) {
    && last.id in batch
    && batch[last.id] == last
    && Ready(batch, emitted, last.id)
    && forall x <- batch :: Ready(batch, emitted, x) ==> x == last.id || Before(last, batch[x])
  }

  /** A batch by id. */
  ghost function BatchOf(ops: seq<Op>): (batch: Batch)
    ensures Named(batch) && batch.Keys == Emitted(ops) && forall id <- batch :: batch[id] in ops
  {
    if ops == [] then map[]
    else
      var (init, last) := (ops[..|ops| - 1], ops[|ops| - 1]);
      assert ops == init + [last];
      BatchOf(init)[last.id := last]
  }

  /** Each operation of `out` is the least one ready when it is emitted. */
  ghost predicate Ordered(batch: Batch, out: seq<Op>) {
    out == []
    || (&& Ordered(batch, out[..|out| - 1])
        && Next(batch, Emitted(out[..|out| - 1]), out[|out| - 1]))
  }

  lemma EmittedAppend(out: seq<Op>, op: Op)
    ensures Emitted(out + [op]) == Emitted(out) + {op.id}
  {
  }

  lemma DepEmitted(batch: Batch, emitted: set<OpId>, x: OpId, d: OpId)
    requires x in batch && d in batch && d in batch[x].deps && d !in Waiting(batch, emitted, x)
    ensures d in emitted
  {
  }

  /** Each operation of `out` is ready when it is emitted. */
  ghost predicate Causal(batch: Batch, out: seq<Op>) {
    out == []
    || (&& Causal(batch, out[..|out| - 1])
        && out[|out| - 1].id in batch
        && batch[out[|out| - 1].id] == out[|out| - 1]
        && Ready(batch, Emitted(out[..|out| - 1]), out[|out| - 1].id))
  }

  /** Below everything not yet emitted, some operation is ready. */
  lemma {:induction false} ReadyBelow(batch: Batch, emitted: set<OpId>, y: OpId) returns (z: OpId)
    requires y in batch && y !in emitted && Falling(batch)
    ensures z in batch && Ready(batch, emitted, z) && (z == y || batch[z].gen < batch[y].gen)
    decreases batch[y].gen
  {
    if Waiting(batch, emitted, y) == {} {
      z := y;
    } else {
      var d :| d in Waiting(batch, emitted, y);
      z := ReadyBelow(batch, emitted, d);
    }
  }

  /** Generations fall along dependencies within the batch. */
  ghost predicate Falling(batch: Batch) {
    forall x <- batch, d <- batch[x].deps :: d in batch ==> batch[d].gen < batch[x].gen
  }

  lemma {:induction false} OrderedNext(batch: Batch, out: seq<Op>, n: nat)
    requires Ordered(batch, out) && n < |out|
    ensures Next(batch, Emitted(out[..n]), out[n])
    decreases |out|
  {
    hide Next, Emitted;
    var init := out[..|out| - 1];
    if n < |init| {
      OrderedNext(batch, init, n);
      assert init[..n] == out[..n];
    }
  }

  /** Then the order is by generation and among equals by id. */
  lemma LaterIsHigher(batch: Batch, out: seq<Op>, n: nat, k: nat)
    requires Ordered(batch, out) && Falling(batch) && n < k < |out|
    ensures out[n].gen < out[k].gen || (out[n].gen == out[k].gen && out[n].id < out[k].id)
  {
    hide Ordered, Falling, Emitted, Ready;
    OrderedNext(batch, out, n);
    OrderedIsCausal(batch, out);
    CausalMeans(batch, out);
    assert out[k].id !in Emitted(out[..n + 1]) by { EmittedPrefix(out, n + 1, k); }
    EmittedPrefix(out, n, n + 1);
    var z := ReadyBelow(batch, Emitted(out[..n]), out[k].id);
    assert out[n].id in Emitted(out[..n + 1]) by { LastEmitted(out, n); }
  }

  lemma LastEmitted(out: seq<Op>, n: nat)
    requires n < |out|
    ensures out[n].id in Emitted(out[..n + 1])
  {
    assert out[..n + 1][n] == out[n];
  }

  lemma EmittedPrefix(out: seq<Op>, n: nat, k: nat)
    requires n <= k <= |out|
    ensures Emitted(out[..n]) <= Emitted(out[..k])
  {
    forall x | x in Emitted(out[..n])
      ensures x in Emitted(out[..k])
    {
      var i :| 0 <= i < n && out[..n][i].id == x;
      assert out[..k][i] == out[i];
    }
  }

  lemma {:induction false} OrderedIsCausal(batch: Batch, out: seq<Op>)
    requires Ordered(batch, out)
    ensures Causal(batch, out)
  {
    hide Emitted, Before, Ready;
    if out != [] {
      OrderedIsCausal(batch, out[..|out| - 1]);
    }
  }

  /** Every operation comes once, after its in-batch dependencies. */
  lemma {:induction false} CausalMeans(batch: Batch, out: seq<Op>)
    requires Causal(batch, out)
    ensures Emitted(out) <= batch.Keys && |Emitted(out)| == |out|
    ensures forall i :: 0 <= i < |out| ==> out[i].id in batch && batch[out[i].id] == out[i]
    ensures forall i, d :: 0 <= i < |out| && d in out[i].deps && d in batch ==> d in Emitted(out[..i])
    ensures forall i :: 0 <= i < |out| ==> out[i].id !in Emitted(out[..i])
  {
    hide Emitted, Before, Waiting;
    NothingEmitted(batch);
    if out != [] {
      var (init, last) := (out[..|out| - 1], out[|out| - 1]);
      CausalMeans(batch, init);
      forall d | d in last.deps && d in batch
        ensures d in Emitted(init)
      {
        DepEmitted(batch, Emitted(init), last.id, d);
      }
      assert out == init + [last];
      EmittedAppend(init, last);
      forall i | 0 <= i < |init|
        ensures out[..i] == init[..i] && out[i] == init[i]
      {
      }
    }
  }

  /** The order is decided by the batch alone. */
  lemma {:induction false} OrderUnique(batch: Batch, a: seq<Op>, b: seq<Op>)
    requires Ordered(batch, a) && Ordered(batch, b) && |a| == |b|
    ensures a == b
  {
    hide Ready;
    if a != [] {
      OrderUnique(batch, a[..|a| - 1], b[..|b| - 1]);
      assert a == a[..|a| - 1] + [a[|a| - 1]];
      assert b == b[..|b| - 1] + [b[|b| - 1]];
    }
  }

  /** The least of the ready operations. */
  method First(batch: Batch, ready: set<OpId>) returns (id: OpId)
    requires ready != {} && ready <= batch.Keys && Named(batch)
    ensures id in ready && forall x <- ready :: x != id ==> Before(batch[id], batch[x])
  {
    id :| id in ready;
    var rest := ready - {id};
    while rest != {}
      invariant id in ready && rest <= ready && id !in rest
      invariant forall x <- ready - rest :: x != id ==> Before(batch[id], batch[x])
      decreases rest
    {
      var x :| x in rest;
      if Before(batch[x], batch[id]) {
        id := x;
      }
      rest := rest - {x};
    }
  }

  /** One child fewer waits for `id`. */
  lemma WaitingStep(batch: Batch, emitted: set<OpId>, id: OpId, x: OpId)
    requires x in batch && id in batch && id !in emitted
    ensures |Waiting(batch, emitted + {id}, x)| ==
            |Waiting(batch, emitted, x)| - if id in batch[x].deps then 1 else 0
  {
    var (w, u) := (Waiting(batch, emitted, x), Waiting(batch, emitted + {id}, x));
    if id in batch[x].deps {
      assert u == w - {id};
    } else {
      assert u == w;
    }
  }

  /** What `x` waits for; the children in `todo` still wait for `id`, which is being emitted. */
  ghost function Left(batch: Batch, emitted: set<OpId>, todo: set<OpId>, id: OpId, x: OpId): nat
    requires x in batch
  {
    |Waiting(batch, if x in todo then emitted - {id} else emitted, x)|
  }

  /** Unemitted operations are counted by what they wait for, and ready at zero. */
  ghost predicate Counted(batch: Batch, emitted: set<OpId>, todo: set<OpId>, id: OpId,
                          count: map<OpId, nat>, ready: set<OpId>)
  {
    && emitted <= batch.Keys
    && ready <= batch.Keys - emitted
    && count.Keys == batch.Keys
    && (forall x <- emitted :: Waiting(batch, emitted, x) == {})
    && (forall x <- batch.Keys - emitted :: count[x] == Left(batch, emitted, todo, id, x))
    && (forall x <- batch.Keys - emitted :: x in ready <==> count[x] == 0)
  }

  function Children(batch: Batch, id: OpId): set<OpId> {
    set c <- batch | id in batch[c].deps
  }

  lemma StartRelease(batch: Batch, emitted: set<OpId>, id: OpId, count: map<OpId, nat>, ready: set<OpId>)
    requires Counted(batch, emitted, {}, id, count, ready) && id in ready
    ensures id !in emitted && Waiting(batch, emitted, id) == {}
    ensures Counted(batch, emitted + {id}, Children(batch, id), id, count, ready - {id})
    ensures Children(batch, id) !! emitted + {id}
  {
    hide Waiting;
    assert Left(batch, emitted, {}, id, id) == 0;
    forall c | c in Children(batch, id)
      ensures c !in emitted + {id}
    {
      if c in emitted + {id} {
        DepEmitted(batch, emitted, c, id);
        assert false;
      }
    }
    assert emitted + {id} - {id} == emitted;
    forall x | x in batch
      ensures Left(batch, emitted, {}, id, x) == Left(batch, emitted + {id}, Children(batch, id), id, x)
    {
      WaitingStep(batch, emitted, id, x);
    }
    forall x | x in emitted + {id}
      ensures Waiting(batch, emitted + {id}, x) == {}
    {
      WaitingStep(batch, emitted, id, x);
    }
  }

  lemma LeftStep(batch: Batch, emitted: set<OpId>, todo: set<OpId>, id: OpId, c: OpId)
    requires c in batch && id in batch && id in emitted && c in todo && id in batch[c].deps
    ensures Left(batch, emitted, todo, id, c) == Left(batch, emitted, todo - {c}, id, c) + 1
    ensures forall x <- batch :: x != c ==>
      Left(batch, emitted, todo, id, x) == Left(batch, emitted, todo - {c}, id, x)
  {
    WaitingStep(batch, emitted - {id}, id, c);
    assert emitted - {id} + {id} == emitted;
  }

  lemma ReleaseStep(batch: Batch, emitted: set<OpId>, todo: set<OpId>, id: OpId, c: OpId,
                    count: map<OpId, nat>, ready: set<OpId>)
    requires Counted(batch, emitted, todo, id, count, ready) && id in emitted
    requires c in todo && todo <= Children(batch, id) && c !in emitted
    ensures count[c] > 0
    ensures Counted(batch, emitted, todo - {c}, id, count[c := count[c] - 1],
                    if count[c] == 1 then ready + {c} else ready)
  {
    hide Left, Waiting;
    LeftStep(batch, emitted, todo, id, c);
  }

  /** Emits `id`: its children wait for one operation less, and those left with none are ready. */
  method Release(batch: Batch, ghost emitted: set<OpId>, id: OpId, count: map<OpId, nat>, ready: set<OpId>)
    returns (count': map<OpId, nat>, ready': set<OpId>)
    requires Counted(batch, emitted, {}, id, count, ready) && id in ready
    ensures Counted(batch, emitted + {id}, {}, id, count', ready')
  {
    hide Counted;
    StartRelease(batch, emitted, id, count, ready);
    count', ready' := count, ready - {id};
    var todo := Children(batch, id);
    while todo != {}
      invariant todo <= Children(batch, id)
      invariant Counted(batch, emitted + {id}, todo, id, count', ready')
      decreases todo
    {
      var c :| c in todo;
      assert count'.Keys == batch.Keys by { CountedKeys(batch, emitted + {id}, todo, id, count', ready'); }
      ReleaseStep(batch, emitted + {id}, todo, id, c, count', ready');
      var left := count'[c] - 1;
      count' := count'[c := left];
      if left == 0 {
        ready' := ready' + {c};
      }
      todo := todo - {c};
    }
  }

  lemma CountedKeys(batch: Batch, emitted: set<OpId>, todo: set<OpId>, id: OpId,
                    count: map<OpId, nat>, ready: set<OpId>)
    requires Counted(batch, emitted, todo, id, count, ready)
    ensures count.Keys == batch.Keys && ready <= batch.Keys - emitted
  {
  }

  lemma AnyCounted(batch: Batch, emitted: set<OpId>, a: OpId, b: OpId, count: map<OpId, nat>, ready: set<OpId>)
    requires Counted(batch, emitted, {}, a, count, ready)
    ensures Counted(batch, emitted, {}, b, count, ready)
  {
  }

  lemma EmitStep(batch: Batch, out: seq<Op>, id: OpId, count: map<OpId, nat>, ready: set<OpId>)
    requires Named(batch) && Counted(batch, Emitted(out), {}, 0, count, ready) && Ordered(batch, out)
    requires id in ready && forall x <- ready :: x != id ==> Before(batch[id], batch[x])
    ensures Ordered(batch, out + [batch[id]])
  {
    hide Emitted, Before;
    var more := out + [batch[id]];
    assert more[..|more| - 1] == out;
  }

  lemma StuckIsKnot(batch: Batch, emitted: set<OpId>, count: map<OpId, nat>)
    requires Counted(batch, emitted, {}, 0, count, {}) && emitted != batch.Keys
    ensures Knot(batch, batch.Keys - emitted)
  {
  }

  lemma NextOutsideKnot(batch: Batch, emitted: set<OpId>, x: OpId, knot: set<OpId>)
    requires Knot(batch, knot) && knot !! emitted && x in batch && Ready(batch, emitted, x)
    ensures x !in knot
  {
    hide Waiting;
    if x in knot {
      assert Tied(batch, knot, x);
      var d :| d in knot && d in batch[x].deps;
      DepEmitted(batch, emitted, x, d);
      assert false;
    }
  }

  /** A causal order leaves every cycle out: its first operation inside a knot would wait for another. */
  lemma {:induction false} CausalIsAcyclic(batch: Batch, out: seq<Op>, knot: set<OpId>)
    requires Causal(batch, out) && Knot(batch, knot)
    ensures knot !! Emitted(out)
  {
    hide Emitted, Before, Ready, Knot;
    NothingEmitted(batch);
    if out != [] {
      var (init, last) := (out[..|out| - 1], out[|out| - 1]);
      CausalIsAcyclic(batch, init, knot);
      assert out == init + [last];
      EmittedAppend(init, last);
      NextOutsideKnot(batch, Emitted(init), last.id, knot);
    }
  }

  /**
   The batch in causal order. It succeeds exactly on batches without a cycle, and the
   order depends on the set of operations only.
   */
  method TopologicalOps(ops: seq<Op>) returns (r: Option<seq<Op>>)
    ensures r.None? <==> Cyclic(BatchOf(ops))
    ensures r.Some? ==> Ordered(BatchOf(ops), r.value) && Emitted(r.value) == Emitted(ops)
  {
    hide Counted, Ordered, Knot, Causal, BatchOf;
    var byId: Batch := ById(ops);
    var count, ready := Degrees(byId);
    var out: seq<Op> := [];
    assert Ordered(byId, out) && Emitted(out) == {} by { NothingEmitted(byId); }
    while ready != {}
      invariant Counted(byId, Emitted(out), {}, 0, count, ready)
      invariant Ordered(byId, out)
      decreases byId.Keys - Emitted(out)
    {
      CountedKeys(byId, Emitted(out), {}, 0, count, ready);
      var id := First(byId, ready);
      EmitStep(byId, out, id, count, ready);
      AnyCounted(byId, Emitted(out), 0, id, count, ready);
      count, ready := Release(byId, Emitted(out), id, count, ready);
      AnyCounted(byId, Emitted(out) + {id}, id, 0, count, ready);
      EmittedAppend(out, byId[id]);
      out := out + [byId[id]];
    }
    OrderedIsCausal(byId, out);
    CausalMeans(byId, out);
    if |out| != |byId.Keys| {
      StuckIsKnot(byId, Emitted(out), count);
      return None;
    }
    SameSize(Emitted(out), byId.Keys);
    if Cyclic(byId) {
      var knot :| Knot(byId, knot);
      CausalIsAcyclic(byId, out, knot);
      assert false by { KnotWithin(byId, knot); }
    }
    r := Some(out);
  }

  lemma KnotWithin(batch: Batch, knot: set<OpId>)
    requires Knot(batch, knot)
    ensures knot != {} && knot <= batch.Keys
  {
  }

  lemma SameSize(a: set<OpId>, b: set<OpId>)
    requires a <= b && |a| == |b|
    ensures a == b
  {
    assert b == a + (b - a);
  }

  lemma NothingEmitted(batch: Batch)
    ensures Ordered(batch, []) && Emitted([]) == {}
  {
  }

  /** The operations by id; equal ids carry the same operation, so the last one stands. */
  method ById(ops: seq<Op>) returns (batch: Batch)
    ensures batch == BatchOf(ops)
  {
    batch := map[];
    for i := 0 to |ops|
      invariant batch == BatchOf(ops[..i])
    {
      assert ops[..i + 1][..i] == ops[..i];
      batch := batch[ops[i].id := ops[i]];
    }
    assert ops[..|ops|] == ops;
  }

  /** How many in-batch dependencies each operation waits for, and the ones that wait for none. */
  method Degrees(batch: Batch) returns (count: map<OpId, nat>, ready: set<OpId>)
    ensures Counted(batch, {}, {}, 0, count, ready)
  {
    hide Waiting;
    count := map id <- batch :: |Waiting(batch, {}, id)|;
    ready := set id <- batch | count[id] == 0;
  }
}
