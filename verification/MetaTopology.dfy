/**
 Linearisation of stored operations: what has a hole among itself or its ancestors in the
 set waits, and the rest comes in causal order, first freed first.
 */
module MetaTopology {
  import opened Prelude
  import opened Dag
  import opened Topology

  /** What a read snapshot answers: stored metadata, and the ids whose record and metadata are both held. */
  datatype Snapshot = Snapshot(meta: map<OpId, Op>, resolvable: set<OpId>)

  /** `x` itself cannot be emitted: it is unreadable or names a dependency nobody can read. */
  predicate Hole(s: Snapshot, ids: set<OpId>, x: OpId) {
    x !in s.meta || x !in s.resolvable || exists d :: d in s.meta[x].deps && d !in ids && d !in s.resolvable
  }

  predicate Names(s: Snapshot, x: OpId, d: OpId) {
    x in s.meta && d in s.meta[x].deps
  }

  /** A chain of dependencies inside the set that starts at a hole. */
  ghost predicate FromHole(s: Snapshot, ids: set<OpId>, path: seq<OpId>) {
    && path != []
    && (forall i :: 0 <= i < |path| ==> path[i] in ids)
    && Hole(s, ids, path[0])
    && (forall i :: 0 <= i < |path| - 1 ==> Names(s, path[i + 1], path[i]))
  }

  /** `x` is a hole or descends from one within the set. */
  ghost predicate Deferred(s: Snapshot, ids: set<OpId>, x: OpId) {
    exists path :: FromHole(s, ids, path) && path[|path| - 1] == x
  }

  /** The operations of the set that wait for no hole. */
  ghost function Whole(s: Snapshot, ids: set<OpId>): Batch {
    map x | x in ids && x in s.meta && !Deferred(s, ids, x) :: s.meta[x]
  }

  lemma HoleIsDeferred(s: Snapshot, ids: set<OpId>, x: OpId)
    requires x in ids && Hole(s, ids, x)
    ensures Deferred(s, ids, x)
  {
    var path := [x];
    assert FromHole(s, ids, path) && path[|path| - 1] == x;
  }

  lemma DeferredChild(s: Snapshot, ids: set<OpId>, d: OpId, x: OpId)
    requires Deferred(s, ids, d) && x in ids && Names(s, x, d)
    ensures Deferred(s, ids, x)
  {
    var path :| FromHole(s, ids, path) && path[|path| - 1] == d;
    var longer := path + [x];
    assert FromHole(s, ids, longer) && longer[|longer| - 1] == x;
  }

  /** A set with every hole and every in-set child of its members has all that is deferred. */
  lemma {:induction false} DeferredWithin(s: Snapshot, ids: set<OpId>, blocked: set<OpId>, path: seq<OpId>)
    requires forall x <- ids :: Hole(s, ids, x) ==> x in blocked
    requires forall x <- ids, d <- blocked :: Names(s, x, d) ==> x in blocked
    requires FromHole(s, ids, path)
    ensures path[|path| - 1] in blocked
  {
    if |path| > 1 {
      var init := path[..|path| - 1];
      assert FromHole(s, ids, init);
      DeferredWithin(s, ids, blocked, init);
      assert Names(s, path[|path| - 1], init[|init| - 1]);
    }
  }

  lemma NoHole(s: Snapshot, ids: set<OpId>)
    ensures forall x {:trigger Hole(s, ids, x)} :: !Hole(s, ids, x) ==> x in s.meta && x in s.resolvable
  {
  }

  ghost function HolesAmong(s: Snapshot, ids: set<OpId>, some: set<OpId>): set<OpId> {
    set x <- some | Hole(s, ids, x)
  }

  ghost function ReadableAmong(s: Snapshot, ids: set<OpId>, some: set<OpId>): Batch {
    map x <- some | !Hole(s, ids, x) && x in s.meta :: s.meta[x]
  }

  /** How many dependencies within the set each operation has. */
  ghost function CountsWithin(batch: Batch, ids: set<OpId>): map<OpId, nat> {
    map x <- batch :: |batch[x].deps * ids|
  }

  lemma SortOne(s: Snapshot, ids: set<OpId>, some: set<OpId>, id: OpId)
    requires id !in some
    ensures Hole(s, ids, id) ==>
      && HolesAmong(s, ids, some + {id}) == HolesAmong(s, ids, some) + {id}
      && ReadableAmong(s, ids, some + {id}) == ReadableAmong(s, ids, some)
    ensures !Hole(s, ids, id) ==>
      && id in s.meta
      && HolesAmong(s, ids, some + {id}) == HolesAmong(s, ids, some)
      && ReadableAmong(s, ids, some + {id}) == ReadableAmong(s, ids, some)[id := s.meta[id]]
  {
    hide Hole;
    NoHole(s, ids);
  }

  lemma CountOne(batch: Batch, ids: set<OpId>, id: OpId, op: Op)
    ensures CountsWithin(batch[id := op], ids) == CountsWithin(batch, ids)[id := |op.deps * ids|]
  {
  }

  /** Sorts the ids into those that can be read with their dependencies and those that cannot. */
  method Classify(s: Snapshot, ids: set<OpId>)
    returns (present: Batch, count: map<OpId, nat>, blocked: set<OpId>)
    ensures blocked == HolesAmong(s, ids, ids) && present == ReadableAmong(s, ids, ids)
    ensures count == CountsWithin(present, ids)
  {
    hide Hole, HolesAmong, ReadableAmong, CountsWithin;
    present, count, blocked := map[], map[], {};
    var todo := ids;
    SortNone(s, ids, ids - todo);
    while todo != {}
      invariant todo <= ids
      invariant blocked == HolesAmong(s, ids, ids - todo) && present == ReadableAmong(s, ids, ids - todo)
      invariant count == CountsWithin(present, ids)
      decreases todo
    {
      var id :| id in todo;
      SortOne(s, ids, ids - todo, id);
      assert ids - todo + {id} == ids - (todo - {id});
      if Hole(s, ids, id) {
        blocked := blocked + {id};
      } else {
        CountOne(present, ids, id, s.meta[id]);
        present := present[id := s.meta[id]];
        count := count[id := |s.meta[id].deps * ids|];
      }
      todo := todo - {id};
    }
    assert ids - todo == ids;
  }

  lemma SortNone(s: Snapshot, ids: set<OpId>, none: set<OpId>)
    requires none == {}
    ensures HolesAmong(s, ids, none) == {} && ReadableAmong(s, ids, none) == map[] && CountsWithin(map[], ids) == map[]
  {
  }

  /** The ids of the set that can be read and depend on `d`. */
  function Kids(s: Snapshot, ids: set<OpId>, d: OpId): set<OpId> {
    set x | x in ids && x in s.resolvable && Names(s, x, d)
  }

  /** What `blocked` blocks has been blocked, except below `frontier`. */
  ghost predicate BlockedSoFar(s: Snapshot, ids: set<OpId>, blocked: set<OpId>, frontier: set<OpId>) {
    && frontier <= blocked <= ids
    && (forall x <- ids :: Hole(s, ids, x) ==> x in blocked)
    && (forall x <- blocked :: Deferred(s, ids, x))
    && (forall d <- blocked - frontier :: Kids(s, ids, d) <= blocked)
  }

  lemma BlockStep(s: Snapshot, ids: set<OpId>, blocked: set<OpId>, frontier: set<OpId>, id: OpId)
    requires BlockedSoFar(s, ids, blocked, frontier) && id in frontier
    ensures
      var added := Kids(s, ids, id) - blocked;
      BlockedSoFar(s, ids, blocked + added, frontier - {id} + added)
  {
    hide Hole, Deferred, Names;
    var added := Kids(s, ids, id) - blocked;
    forall x | x in added
      ensures Deferred(s, ids, x)
    {
      DeferredChild(s, ids, id, x);
    }
  }

  lemma BlockDone(s: Snapshot, ids: set<OpId>, blocked: set<OpId>)
    requires BlockedSoFar(s, ids, blocked, {})
    ensures blocked == set x | x in ids && Deferred(s, ids, x)
  {
    hide Hole;
    NoHole(s, ids);
    forall x, d | x in ids && d in blocked && Names(s, x, d)
      ensures x in blocked
    {
      if !Hole(s, ids, x) {
        assert x in Kids(s, ids, d);
      }
    }
    forall x | x in ids && Deferred(s, ids, x)
      ensures x in blocked
    {
      var path :| FromHole(s, ids, path) && path[|path| - 1] == x;
      DeferredWithin(s, ids, blocked, path);
    }
  }

  /** Blocks what descends from a hole. */
  method Block(s: Snapshot, ids: set<OpId>, holes: set<OpId>) returns (blocked: set<OpId>)
    requires holes == HolesAmong(s, ids, ids)
    ensures blocked == set x | x in ids && Deferred(s, ids, x)
  {
    hide BlockedSoFar, Hole, Deferred;
    blocked := holes;
    var frontier := holes;
    assert BlockedSoFar(s, ids, blocked, frontier) by { BlockStart(s, ids, holes); }
    while frontier != {}
      invariant BlockedSoFar(s, ids, blocked, frontier) && blocked <= ids
      decreases ids - blocked, frontier
    {
      var id :| id in frontier;
      var added := Kids(s, ids, id) - blocked;
      BlockStep(s, ids, blocked, frontier, id);
      blocked := blocked + added;
      frontier := frontier - {id} + added;
    }
    BlockDone(s, ids, blocked);
  }

  lemma BlockStart(s: Snapshot, ids: set<OpId>, holes: set<OpId>)
    requires holes == HolesAmong(s, ids, ids)
    ensures BlockedSoFar(s, ids, holes, holes)
  {
    hide Hole, Deferred;
    forall x | x in holes
      ensures Deferred(s, ids, x)
    {
      HoleIsDeferred(s, ids, x);
    }
  }

  /** An operation that waits for no hole has its in-set dependencies among those that wait for none. */
  lemma WholeDeps(s: Snapshot, ids: set<OpId>, x: OpId)
    requires x in Whole(s, ids)
    ensures Whole(s, ids)[x].deps * ids == Whole(s, ids)[x].deps * Whole(s, ids).Keys
  {
    hide Deferred;
    forall d | d in s.meta[x].deps && d in ids
      ensures d in Whole(s, ids)
    {
      assert Names(s, x, d);
      if Deferred(s, ids, d) {
        DeferredChild(s, ids, d, x);
      } else if d !in s.meta {
        HoleIsDeferred(s, ids, d);
      }
    }
  }

  /** The id is readable, and each dependency is readable or, within the set, among those that come. */
  ghost predicate Standing(s: Snapshot, ids: set<OpId>, come: set<OpId>, x: OpId) {
    && x in s.meta && x in s.resolvable
    && forall d <- s.meta[x].deps :: if d in ids then d in come else d in s.resolvable
  }

  lemma WholeStands(s: Snapshot, ids: set<OpId>, x: OpId)
    requires x in ids
    ensures x in Whole(s, ids) <==> Standing(s, ids, Whole(s, ids).Keys, x)
  {
    hide Deferred, FromHole, Names;
    var come := Whole(s, ids).Keys;
    if x in come {
      if Hole(s, ids, x) {
        HoleIsDeferred(s, ids, x);
      }
      WholeDeps(s, ids, x);
      forall d | d in s.meta[x].deps && d in ids
        ensures d in come
      {
        assert d in s.meta[x].deps * ids;
      }
    } else if Deferred(s, ids, x) {
      DeferredCannotStand(s, ids, x);
    }
  }

  lemma DeferredCannotStand(s: Snapshot, ids: set<OpId>, x: OpId)
    requires Deferred(s, ids, x)
    ensures !Standing(s, ids, Whole(s, ids).Keys, x)
  {
    var path :| FromHole(s, ids, path) && path[|path| - 1] == x;
    if |path| > 1 {
      var (init, d) := (path[..|path| - 1], path[|path| - 2]);
      assert Names(s, path[|path| - 1], path[|path| - 2]);
      assert FromHole(s, ids, init) && init[|init| - 1] == d;
      assert d in ids && d !in Whole(s, ids);
    }
  }

  lemma StartCounted(s: Snapshot, ids: set<OpId>, whole: Batch, count: map<OpId, nat>, ready: set<OpId>)
    requires whole == Whole(s, ids) && count == CountsWithin(whole, ids)
    requires ready == set x <- whole | count[x] == 0
    ensures Counted(whole, {}, {}, 0, count, ready)
  {
    hide Whole, Waiting;
    forall x | x in whole
      ensures Left(whole, {}, {}, 0, x) == count[x]
    {
      StartLeft(s, ids, x);
    }
  }

  lemma StartLeft(s: Snapshot, ids: set<OpId>, x: OpId)
    requires x in Whole(s, ids)
    ensures Left(Whole(s, ids), {}, {}, 0, x) == |Whole(s, ids)[x].deps * ids|
  {
    hide Whole;
    WholeDeps(s, ids, x);
    assert Waiting(Whole(s, ids), {}, x) == Whole(s, ids)[x].deps * ids;
  }

  // ---- the queue ----

  /** Where in `out` the last of `deps` stands, -1 when none does. */
  ghost function FreedAt(out: seq<Op>, deps: set<OpId>): (n: int)
    ensures -1 <= n < |out|
  {
    if out == [] then -1
    else if out[|out| - 1].id in deps then |out| - 1
    else FreedAt(out[..|out| - 1], deps)
  }

  /** Freed by an earlier operation of `out`, or by the same one and smaller. */
  ghost predicate Sooner(out: seq<Op>, a: Op, b: Op) {
    FreedAt(out, a.deps) < FreedAt(out, b.deps) || (FreedAt(out, a.deps) == FreedAt(out, b.deps) && a.id < b.id)
  }

  /** `line` stands in the order in which the operations of `out` free it. */
  ghost predicate InLine(out: seq<Op>, line: seq<Op>) {
    forall i, j :: 0 <= i < j < |line| ==> Sooner(out, line[i], line[j])
  }

  lemma FreedNext(out: seq<Op>, op: Op, deps: set<OpId>)
    ensures FreedAt(out + [op], deps) == if op.id in deps then |out| else FreedAt(out, deps)
  {
    assert (out + [op])[..|out|] == out;
  }

  /** What the next operation frees goes behind everybody in line. */
  lemma LineGrows(out: seq<Op>, op: Op, line: seq<Op>, freed: seq<Op>)
    requires InLine(out, line) && forall x <- line :: op.id !in x.deps
    requires forall x <- freed :: op.id in x.deps
    requires forall i, j :: 0 <= i < j < |freed| ==> freed[i].id < freed[j].id
    ensures InLine(out + [op], line + freed)
  {
    hide FreedAt;
    var more := line + freed;
    forall i, j | 0 <= i < j < |more|
      ensures Sooner(out + [op], more[i], more[j])
    {
      FreedNext(out, op, more[i].deps);
      FreedNext(out, op, more[j].deps);
      if j < |line| {
        assert Sooner(out, line[i], line[j]);
      } else if i < |line| {
        assert more[i] in line && more[j] in freed;
      } else {
        assert more[i] in freed && more[j] in freed;
      }
    }
  }

  /** In ascending order. */
  method Ascending(ids: set<OpId>) returns (r: seq<OpId>)
    ensures ListedBy(ids, r) && forall i, j :: 0 <= i < j < |r| ==> r[i] < r[j]
  {
    r := [];
    var left := ids;
    while left != {}
      invariant left <= ids && (forall x <- r :: x in ids && x !in left) && (forall x <- ids :: x in left || x in r)
      invariant forall i, j :: 0 <= i < j < |r| ==> r[i] < r[j]
      invariant forall i, y :: 0 <= i < |r| && y in left ==> r[i] < y
      decreases left
    {
      var id := Least(left);
      r, left := r + [id], left - {id};
    }
  }

  ghost predicate ListedBy(ids: set<OpId>, r: seq<OpId>) {
    forall x :: x in r <==> x in ids
  }

  function OpsOf(batch: Batch, ids: seq<OpId>): (ops: seq<Op>)
    requires forall x <- ids :: x in batch
    ensures |ops| == |ids| && forall i :: 0 <= i < |ids| ==> ops[i] == batch[ids[i]]
  {
    seq(|ids|, i requires 0 <= i < |ids| => batch[ids[i]])
  }

  /** The queue holds the ready operations in line behind what is out. */
  ghost predicate Queued(batch: Batch, out: seq<Op>, queue: seq<OpId>, ready: set<OpId>) {
    && ListedBy(ready, queue)
    && (forall x <- queue :: x in batch)
    && InLine(out, out + OpsOf(batch, queue))
  }

  lemma QueueStarts(batch: Batch, queue: seq<OpId>, ready: set<OpId>)
    requires Named(batch) && ready <= batch.Keys && ListedBy(ready, queue)
    requires forall i, j :: 0 <= i < j < |queue| ==> queue[i] < queue[j]
    ensures Queued(batch, [], queue, ready)
  {
    hide ListedBy, InLine, Named;
    assert forall x <- queue :: x in batch by { ListedMeans(ready, queue); }
    assert [] + OpsOf(batch, queue) == OpsOf(batch, queue);
    LineStarts(batch, queue);
  }

  lemma LineStarts(batch: Batch, ids: seq<OpId>)
    requires Named(batch) && (forall x <- ids :: x in batch)
    requires forall i, j :: 0 <= i < j < |ids| ==> ids[i] < ids[j]
    ensures InLine([], OpsOf(batch, ids))
  {
    var ops := OpsOf(batch, ids);
    forall i, j | 0 <= i < j < |ops|
      ensures Sooner([], ops[i], ops[j])
    {
      assert ids[i] in batch && ids[j] in batch;
    }
  }

  lemma ListedMeans(ids: set<OpId>, r: seq<OpId>)
    requires ListedBy(ids, r)
    ensures (forall x <- r :: x in ids) && (forall x <- ids :: x in r)
  {
  }

  /** What is ready waits for nothing, and what becomes ready waited for the operation emitted. */
  lemma Frees(batch: Batch, emitted: set<OpId>, id: OpId, count: map<OpId, nat>, ready: set<OpId>,
              count': map<OpId, nat>, ready': set<OpId>, x: OpId)
    requires Counted(batch, emitted, {}, 0, count, ready) && id in ready
    requires Counted(batch, emitted + {id}, {}, 0, count', ready')
    ensures x in ready && x != id ==> x in ready'
    ensures x in ready || x in emitted ==> x in batch && id !in batch[x].deps
    ensures x in ready' && x !in ready ==> x in batch && id in batch[x].deps
    ensures id !in ready'
  {
    hide Counted;
    ReadyMeans(batch, emitted, count, ready, x);
    ReadyMeans(batch, emitted, count, ready, id);
    ReadyMeans(batch, emitted + {id}, count', ready', x);
    ReadyMeans(batch, emitted + {id}, count', ready', id);
  }

  lemma ReadyMeans(batch: Batch, emitted: set<OpId>, count: map<OpId, nat>, ready: set<OpId>, x: OpId)
    requires Counted(batch, emitted, {}, 0, count, ready)
    ensures x in ready <==> x in batch && x !in emitted && Waiting(batch, emitted, x) == {}
    ensures x in emitted ==> x in batch && Waiting(batch, emitted, x) == {}
  {
    hide Waiting;
  }

  lemma QueueSteps(batch: Batch, out: seq<Op>, queue: seq<OpId>, count: map<OpId, nat>, ready: set<OpId>,
                   count': map<OpId, nat>, ready': set<OpId>, freed: seq<OpId>)
    requires Named(batch) && Causal(batch, out) && Queued(batch, out, queue, ready) && queue != []
    requires Counted(batch, Emitted(out), {}, 0, count, ready) && NoRepeats(queue)
    requires Counted(batch, Emitted(out) + {queue[0]}, {}, 0, count', ready')
    requires ListedBy(ready' - (ready - {queue[0]}), freed)
    requires forall i, j :: 0 <= i < j < |freed| ==> freed[i] < freed[j]
    ensures Queued(batch, out + [batch[queue[0]]], queue[1..] + freed, ready') && NoRepeats(queue[1..] + freed)
  {
    hide Counted, Causal, InLine, Emitted, Named, NoRepeats, ListedBy;
    var (id, next) := (queue[0], queue[1..] + freed);
    ListedMeans(ready, queue);
    assert id in queue;
    forall x: OpId
      ensures x in ready && x != id ==> x in ready'
      ensures x in ready || x in Emitted(out) ==> x in batch && id !in batch[x].deps
      ensures x in ready' && x !in ready ==> x in batch && id in batch[x].deps
      ensures id !in ready'
    {
      Frees(batch, Emitted(out), id, count, ready, count', ready', x);
    }
    FreedQueue(queue, freed, ready, ready');
    ListedMeans(ready', next);
    ListedMeans(ready' - (ready - {id}), freed);
    LineSteps(batch, out, queue, freed);
  }

  /** The head of the queue goes out, and what it frees joins at the end. */
  lemma LineSteps(batch: Batch, out: seq<Op>, queue: seq<OpId>, freed: seq<OpId>)
    requires Named(batch) && Causal(batch, out) && queue != []
    requires (forall x <- queue :: x in batch) && (forall x <- freed :: x in batch)
    requires InLine(out, out + OpsOf(batch, queue))
    requires forall x <- Emitted(out) :: x in batch && queue[0] !in batch[x].deps
    requires forall x <- queue :: queue[0] !in batch[x].deps
    requires forall x <- freed :: queue[0] in batch[x].deps
    requires forall i, j :: 0 <= i < j < |freed| ==> freed[i] < freed[j]
    ensures InLine(out + [batch[queue[0]]], out + [batch[queue[0]]] + OpsOf(batch, queue[1..] + freed))
  {
    hide Causal, InLine, Emitted;
    var (id, line, more) := (queue[0], out + OpsOf(batch, queue), OpsOf(batch, freed));
    forall x | x in line
      ensures id !in x.deps
    {
      if x in out {
        OutIsEmitted(batch, out, x);
      }
    }
    LineGrows(out, batch[id], line, more);
    assert line + more == out + [batch[id]] + OpsOf(batch, queue[1..] + freed);
  }

  lemma OutIsEmitted(batch: Batch, out: seq<Op>, x: Op)
    requires Causal(batch, out) && x in out
    ensures x.id in Emitted(out) && x.id in batch && batch[x.id] == x
  {
    CausalMeans(batch, out);
  }

  lemma FreedQueue(queue: seq<OpId>, freed: seq<OpId>, ready: set<OpId>, ready': set<OpId>)
    requires queue != [] && NoRepeats(queue) && ListedBy(ready, queue) && ListedBy(ready' - (ready - {queue[0]}), freed)
    requires forall x <- ready :: x != queue[0] ==> x in ready'
    requires queue[0] !in ready' && forall i, j :: 0 <= i < j < |freed| ==> freed[i] < freed[j]
    ensures ListedBy(ready', queue[1..] + freed) && NoRepeats(queue[1..] + freed)
  {
    var next := queue[1..] + freed;
    forall x: OpId
      ensures x in next <==> x in ready'
    {
      assert queue == [queue[0]] + queue[1..];
      assert x in queue[1..] ==> x != queue[0];
    }
    forall i, j | 0 <= i < j < |next|
      ensures next[i] != next[j]
    {
      if i < |queue| - 1 <= j {
        assert next[i] == queue[i + 1] && next[i] in queue && next[j] in freed;
      }
    }
  }

  /** In a causal order nothing from `n` on frees what only needs what comes before. */
  lemma {:induction false} FreedBefore(out: seq<Op>, n: nat, deps: set<OpId>)
    requires n <= |out| && forall i :: n <= i < |out| ==> out[i].id !in deps
    ensures FreedAt(out, deps) == FreedAt(out[..n], deps)
    decreases |out|
  {
    if n < |out| {
      var init := out[..|out| - 1];
      FreedBefore(init, n, deps);
      assert init[..n] == out[..n];
    } else {
      assert out[..n] == out;
    }
  }

  /** An operation whose in-batch dependencies are out by `n` was freed by then. */
  lemma FreedBy(batch: Batch, out: seq<Op>, n: nat, x: Op)
    requires Causal(batch, out) && n <= |out|
    requires forall d <- x.deps :: d in batch ==> d in Emitted(out[..n])
    ensures FreedAt(out, x.deps) == FreedAt(out[..n], x.deps)
  {
    hide FreedAt, Causal;
    CausalMeans(batch, out);
    FreedBefore(out, n, x.deps);
  }

  /** Queue order fixes the whole order. */
  lemma {:induction false} QueueOrderUnique(batch: Batch, a: seq<Op>, b: seq<Op>, n: nat)
    requires Causal(batch, a) && Causal(batch, b) && Emitted(a) == Emitted(b) && |a| == |b| && n <= |a|
    requires InLine(a, a) && InLine(b, b)
    ensures a[..n] == b[..n]
  {
    hide FreedAt, Causal, Emitted;
    if n > 0 {
      var m := n - 1;
      QueueOrderUnique(batch, a, b, m);
      if a[m] != b[m] {
        SoonerThan(batch, a, b, m);
        SoonerThan(batch, b, a, m);
        assert false;
      }
      assert a[..n] == a[..m] + [a[m]] && b[..n] == b[..m] + [b[m]];
    }
  }

  lemma SoonerThan(batch: Batch, a: seq<Op>, b: seq<Op>, m: nat)
    requires Causal(batch, a) && Causal(batch, b) && Emitted(a) == Emitted(b) && m < |a| && m < |b|
    requires InLine(a, a) && a[..m] == b[..m] && a[m] != b[m]
    ensures Sooner(a[..m], a[m], b[m])
  {
    hide FreedAt, Causal, Emitted;
    var i := StandsLater(batch, a, b, m);
    assert Sooner(a, a[m], a[i]);
    DepsOut(batch, a, m);
    DepsOut(batch, b, m);
    FreedBy(batch, a, m, a[m]);
    FreedBy(batch, a, m, b[m]);
  }

  lemma StandsLater(batch: Batch, a: seq<Op>, b: seq<Op>, m: nat) returns (i: nat)
    requires Causal(batch, a) && Causal(batch, b) && Emitted(a) == Emitted(b) && m < |a| && m < |b|
    requires a[..m] == b[..m] && a[m] != b[m]
    ensures m < i < |a| && a[i] == b[m]
  {
    hide Causal;
    OutIsEmitted(batch, b, b[m]);
    var j :| 0 <= j < |a| && a[j].id == b[m].id;
    OutIsEmitted(batch, a, a[j]);
    i := j;
    if i < m {
      assert b[i] == b[..m][i] == a[i];
      OutOnce(batch, b, i, m);
    }
  }

  lemma OutOnce(batch: Batch, out: seq<Op>, i: nat, j: nat)
    requires Causal(batch, out) && i < j < |out|
    ensures out[i].id != out[j].id
  {
    hide Causal;
    CausalMeans(batch, out);
  }

  lemma DepsOut(batch: Batch, out: seq<Op>, m: nat)
    requires Causal(batch, out) && m < |out|
    ensures forall d <- out[m].deps :: d in batch ==> d in Emitted(out[..m])
  {
    CausalMeans(batch, out);
  }

  /**
   The operations of the set that wait for no hole, each after its dependencies in the set, in the
   order in which they are freed. It fails exactly when those operations have a cycle.
   */
  method TopologicalMeta(s: Snapshot, ids: set<OpId>) returns (r: Option<seq<Op>>)
    requires Named(s.meta)
    ensures r.None? <==> Cyclic(Whole(s, ids))
    ensures r.Some? ==>
      Causal(Whole(s, ids), r.value) && Emitted(r.value) == Whole(s, ids).Keys && InLine(r.value, r.value)
    ensures r.Some? ==> forall x <- ids :: x in Emitted(r.value) <==> Standing(s, ids, Emitted(r.value), x)
  {
    hide InLine, Counted, Causal, Knot, Hole, Deferred, Cyclic, ReadableAmong, CountsWithin, HolesAmong, Whole, Named;
    var present, count, holes := Classify(s, ids);
    var blocked := Block(s, ids, holes);
    UnblockedIsWhole(s, ids, present, count, blocked);
    present := map x <- present | x !in blocked :: present[x];
    count := map x <- present :: count[x];
    var ready := set x <- present | count[x] == 0;
    StartCounted(s, ids, present, count, ready);
    r := Drain(present, count, ready);
    forall x | x in ids
      ensures x in Whole(s, ids) <==> Standing(s, ids, Whole(s, ids).Keys, x)
    {
      WholeStands(s, ids, x);
    }
  }

  /** What is left of the readable ids once the blocked ones are out. */
  lemma UnblockedIsWhole(s: Snapshot, ids: set<OpId>, present: Batch, count: map<OpId, nat>, blocked: set<OpId>)
    requires Named(s.meta) && present == ReadableAmong(s, ids, ids) && count == CountsWithin(present, ids)
    requires blocked == set x | x in ids && Deferred(s, ids, x)
    ensures count.Keys == present.Keys && Named(Whole(s, ids))
    ensures
      var left := map x <- present | x !in blocked :: present[x];
      left == Whole(s, ids) && (map x <- left :: count[x]) == CountsWithin(left, ids)
  {
    hide Hole, Deferred;
    forall x | x in ids && Hole(s, ids, x)
      ensures Deferred(s, ids, x)
    {
      HoleIsDeferred(s, ids, x);
    }
  }

  /** Emits the queue from its head, and puts what becomes ready behind its tail, until none is left. */
  method Drain(batch: Batch, start: map<OpId, nat>, first: set<OpId>) returns (r: Option<seq<Op>>)
    requires Named(batch) && Counted(batch, {}, {}, 0, start, first)
    ensures r.None? <==> Cyclic(batch)
    ensures r.Some? ==> Causal(batch, r.value) && Emitted(r.value) == batch.Keys && InLine(r.value, r.value)
  {
    hide Counted, Causal, Knot, Queued, InLine, NoRepeats, ListedBy, Named, Emitted, Cyclic;
    var count, ready := start, first;
    var out: seq<Op> := [];
    assert Causal(batch, out) && Emitted(out) == {} by { NothingOut(batch); }
    CountedKeys(batch, {}, {}, 0, count, ready);
    var queue := Ascending(first);
    QueueStarts(batch, queue, first);
    AscendingOnce(queue);
    while queue != []
      invariant Counted(batch, Emitted(out), {}, 0, count, ready)
      invariant Causal(batch, out) && Queued(batch, out, queue, ready) && NoRepeats(queue)
      decreases batch.Keys - Emitted(out)
    {
      CountedKeys(batch, Emitted(out), {}, 0, count, ready);
      var id := queue[0];
      QueueReady(batch, out, queue, ready);
      CausalStep(batch, out, id, count, ready);
      AnyCounted(batch, Emitted(out), 0, id, count, ready);
      var count', ready' := Release(batch, Emitted(out), id, count, ready);
      AnyCounted(batch, Emitted(out) + {id}, id, 0, count', ready');
      var freed := Ascending(ready' - (ready - {id}));
      QueueSteps(batch, out, queue, count, ready, count', ready', freed);
      EmittedAppend(out, batch[id]);
      count, ready, queue := count', ready', queue[1..] + freed;
      out := out + [batch[id]];
    }
    QueueEmpty(batch, out, ready);
    CausalMeans(batch, out);
    if |out| != |batch.Keys| {
      StuckIsKnot(batch, Emitted(out), count);
      KnotIsCyclic(batch, batch.Keys - Emitted(out));
      return None;
    }
    SameSize(Emitted(out), batch.Keys);
    AllOutIsAcyclic(batch, out);
    r := Some(out);
  }

  lemma AllOutIsAcyclic(batch: Batch, out: seq<Op>)
    requires Named(batch) && Causal(batch, out) && Emitted(out) == batch.Keys
    ensures !Cyclic(batch)
  {
    hide Causal, Knot;
    if Cyclic(batch) {
      var knot :| Knot(batch, knot);
      CausalIsAcyclic(batch, out, knot);
      assert false by { KnotWithin(batch, knot); }
    }
  }

  lemma KnotIsCyclic(batch: Batch, knot: set<OpId>)
    requires Knot(batch, knot)
    ensures Cyclic(batch)
  {
  }

  lemma AscendingOnce(queue: seq<OpId>)
    requires forall i, j :: 0 <= i < j < |queue| ==> queue[i] < queue[j]
    ensures NoRepeats(queue)
  {
  }

  lemma QueueReady(batch: Batch, out: seq<Op>, queue: seq<OpId>, ready: set<OpId>)
    requires Named(batch) && Queued(batch, out, queue, ready) && queue != []
    ensures queue[0] in ready && queue[0] in batch && batch[queue[0]].id == queue[0]
  {
    hide InLine;
    assert queue[0] in queue;
  }

  lemma QueueEmpty(batch: Batch, out: seq<Op>, ready: set<OpId>)
    requires Queued(batch, out, [], ready)
    ensures ready == {} && InLine(out, out)
  {
    assert out + OpsOf(batch, []) == out;
    assert forall x <- ready :: x in [];
  }

  lemma NothingOut(batch: Batch)
    ensures Causal(batch, []) && Emitted([]) == {}
  {
  }

  lemma CausalStep(batch: Batch, out: seq<Op>, id: OpId, count: map<OpId, nat>, ready: set<OpId>)
    requires Named(batch) && Counted(batch, Emitted(out), {}, 0, count, ready) && Causal(batch, out)
    requires id in ready
    ensures Causal(batch, out + [batch[id]])
  {
    hide Emitted;
    var more := out + [batch[id]];
    assert more[..|more| - 1] == out;
    assert Left(batch, Emitted(out), {}, 0, id) == 0;
  }
}
