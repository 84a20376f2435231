/**
 Incremental history reads: a cursor is a clock, a page is the least unread operations by
 generation and id. Whole runs of admissions and pages are in `Reading`.
 */
module Paging {
  import opened Prelude
  import opened Dag
  import opened Validity
  import opened Store
  import opened Topology
  import opened MetaTopology
  import Oplog

  datatype Cursor = Cursor(genesis: OpId, clock: Clock)

  datatype PageError = IncompleteHistory | TopicNotFound | StaleIncarnation | CycleInGraph

  /** `clock` is where a reader of exactly `read`, a dependency-closed set, stands. */
  ghost predicate Exact(log: Log, read: set<OpId>, clock: Clock) {
    && DownClosed(log, read)
    && ReadUpTo(log, read, clock)
  }

  ghost predicate ReadUpTo(log: Log, read: set<OpId>, clock: Clock)
    requires read <= log.Keys
  {
    && (forall x <- read :: log[x].pos <= Get(clock, log[x].actor))
    && (forall a :: Get(clock, a) > 0 ==> exists x :: x in read && log[x].actor == a && log[x].pos == Get(clock, a))
  }

  /** The clock covers exactly what was read. */
  lemma ExactCovers(log: Log, read: set<OpId>, clock: Clock, x: OpId)
    requires Closed(log) && Chained(log) && ForkFree(log) && Exact(log, read, clock) && x in log
    ensures x in read <==> log[x].pos <= Get(clock, log[x].actor)
  {
    assert ChainLink(log, log[x]);
    if log[x].pos <= Get(clock, log[x].actor) {
      var y :| y in read && log[y].actor == log[x].actor && log[y].pos == Get(clock, log[x].actor);
      ChainHolds(log, read, y, log[x].pos);
    }
  }

  lemma ExactFrame(log: Log, more: Log, read: set<OpId>, clock: Clock)
    requires Extends(log, more) && Exact(log, read, clock)
    ensures Exact(more, read, clock)
  {
  }

  // ---- the queue of next unread operations ----

  ghost predicate Regular(log: Log) {
    Closed(log) && Chained(log) && ForkFree(log)
  }

  lemma GoodIsRegular(log: Log)
    requires Good(log)
    ensures Regular(log)
  {
    hide ValidAt, OneGenesis;
    GoodIsChained(log);
  }

  /** Later operations of an actor have greater generations. */
  lemma ChainGrows(log: Log, x: OpId, y: OpId)
    requires Regular(log) && x in log && y in log
    requires log[x].actor == log[y].actor && log[x].pos < log[y].pos
    ensures log[x].gen < log[y].gen && Ancestor(log, x, y)
  {
    hide ForkFree, Closed;
    assert ChainLink(log, log[x]);
    BelowIsClosed(log, {y});
    ChainHolds(log, Below(log, {y}), y, log[x].pos);
    var z :| z in Below(log, {y}) && log[z].actor == log[y].actor && log[z].pos == log[x].pos;
    SamePosition(log, x, z);
    AncestorGen(log, x, y);
  }

  lemma SamePosition(log: Log, x: OpId, z: OpId)
    requires ForkFree(log) && x in log && z in log && log[x].actor == log[z].actor && log[x].pos == log[z].pos
    ensures x == z
  {
  }

  lemma {:induction false} AncestorGen(log: Log, a: OpId, b: OpId)
    requires Closed(log) && b in log && Ancestor(log, a, b)
    ensures a in log && log[a].gen < log[b].gen
    decreases log[b].gen
  {
    var d :| d in log[b].deps && (a == d || Ancestor(log, a, d));
    if a != d {
      AncestorGen(log, a, d);
    }
  }

  /** One waiting operation an actor at most, past every one of its popped operations. */
  ghost predicate Queue(log: Log, next: set<OpId>, popped: set<OpId>) {
    && next <= log.Keys
    && popped <= log.Keys
    && (forall x <- next, y <- next :: log[x].actor == log[y].actor ==> x == y)
    && (forall x <- next, y <- popped :: log[x].actor == log[y].actor ==> log[y].pos < log[x].pos)
  }

  /** Every unread operation waits at or behind one of the queue. */
  ghost predicate Heads(log: Log, next: set<OpId>, done: set<OpId>) {
    && next <= log.Keys - done
    && (forall u <- log.Keys - done :: Leads(log, next, u))
  }

  ghost predicate Leads(log: Log, next: set<OpId>, u: OpId)
    requires u in log && next <= log.Keys
  {
    exists f :: f in next && log[f].actor == log[u].actor && log[f].pos <= log[u].pos
  }

  /** The least of the queue is the least of all that is unread, and its dependencies are read. */
  lemma LeastIsReady(log: Log, next: set<OpId>, done: set<OpId>, x: OpId)
    requires Regular(log) && Heads(log, next, done) && x in next
    requires forall y <- next :: y != x ==> Before(log[x], log[y])
    ensures forall u <- log.Keys - done :: u != x ==> Before(log[x], log[u])
    ensures log[x].deps <= done
  {
    hide Regular, Before;
    forall u | u in log.Keys - done && u != x
      ensures Before(log[x], log[u])
    {
      UnreadIsLater(log, next, done, x, u);
    }
    forall d | d in log[x].deps
      ensures d in done
    {
      DepGen(log, x, d);
      NotBefore(log[x], log[d]);
    }
  }

  lemma UnreadIsLater(log: Log, next: set<OpId>, done: set<OpId>, x: OpId, u: OpId)
    requires Regular(log) && Heads(log, next, done) && x in next && u in log.Keys - done && u != x
    requires forall y <- next :: y != x ==> Before(log[x], log[y])
    ensures Before(log[x], log[u])
  {
    hide Closed, Chained, ForkFree;
    assert Leads(log, next, u);
    var f :| f in next && log[f].actor == log[u].actor && log[f].pos <= log[u].pos;
    if f != u {
      if log[f].pos == log[u].pos {
        SamePosition(log, f, u);
      } else {
        ChainGrows(log, f, u);
      }
    }
  }

  lemma NotBefore(a: Op, b: Op)
    requires b.gen < a.gen
    ensures !Before(a, b)
  {
  }

  lemma DepGen(log: Log, x: OpId, d: OpId)
    requires Regular(log) && x in log && d in log[x].deps
    ensures d in log && log[d].gen < log[x].gen
  {
  }

  /** The queue after `x` was read and the next operation of its actor, if any, joined. */
  lemma HeadsStep(log: Log, next: set<OpId>, done: set<OpId>, x: OpId, z: Option<OpId>)
    requires Regular(log) && Heads(log, next, done) && x in next && DownClosed(log, done)
    requires Follows(log, log[x].actor, log[x].pos, z)
    ensures Heads(log, next - {x} + (if z.Some? then {z.value} else {}), done + {x})
  {
    hide Closed, Chained, ForkFree, Ancestor;
    var next' := next - {x} + if z.Some? then {z.value} else {};
    if z.Some? {
      ChainGrows(log, x, z.value);
      if z.value in done {
        AncestorDone(log, done, x, z.value);
      }
    }
    forall u | u in log.Keys - (done + {x})
      ensures Leads(log, next', u)
    {
      assert Leads(log, next, u);
      var f :| f in next && log[f].actor == log[u].actor && log[f].pos <= log[u].pos;
      if f == x {
        if log[x].pos == log[u].pos {
          SamePosition(log, x, u);
        }
        assert z.Some? && z.value in next';
      } else {
        assert f in next';
      }
    }
  }

  lemma AncestorDone(log: Log, done: set<OpId>, x: OpId, z: OpId)
    requires Closed(log) && DownClosed(log, done) && z in done && Ancestor(log, x, z)
    ensures x in done
  {
    AncestorInDownClosed(log, done, x, z);
  }

  /** `z` is the actor's first operation after a position. */
  ghost predicate Follows(log: Log, actor: ActorId, after: int, z: Option<OpId>) {
    && (z.Some? ==>
          && z.value in log && log[z.value].actor == actor && log[z.value].pos > after
          && forall u <- log :: log[u].actor == actor && log[u].pos > after ==> log[z.value].pos <= log[u].pos)
    && (z.None? ==> forall u <- log :: log[u].actor == actor ==> log[u].pos <= after)
  }

  lemma QueueStep(log: Log, next: set<OpId>, popped: set<OpId>, x: OpId, z: Option<OpId>)
    requires Queue(log, next, popped) && x in next
    requires z.Some? ==> z.value in log && log[z.value].actor == log[x].actor && log[z.value].pos > log[x].pos
    ensures Queue(log, next - {x}, popped + {x})
    ensures z.Some? ==> Queue(log, next - {x} + {z.value}, popped + {x})
  {
  }

  // ---- one page ----

  /** The actor's first indexed operation after a position; its metadata must be readable. */
  method Unread(v: View, actor: ActorId, after: u64, ghost log: Log) returns (r: Result<Option<OpId>, PageError>)
    requires IndexMatches(v.index, log)
    ensures r.Ok? ==> Follows(log, actor, after, r.value) && (r.value.Some? ==> r.value.value in v.meta)
    ensures v.meta.Keys == log.Keys ==> r.Ok?
  {
    var todo := set k <- v.index | k.0 == actor && k.1 > after;
    var first: Option<(ActorId, u64)> := None;
    while todo != {}
      invariant todo <= v.index.Keys && forall k <- todo :: k.0 == actor && k.1 > after
      invariant first.Some? ==> first.value in v.index && first.value.0 == actor && first.value.1 > after
      invariant forall k <- v.index :: k.0 == actor && k.1 > after ==>
        k in todo || (first.Some? && first.value.1 <= k.1)
      decreases todo
    {
      var k: (ActorId, u64) :| k in todo;
      if first.None? || k.1 < first.value.1 {
        first := Some(k);
      }
      todo := todo - {k};
    }
    if first.None? {
      return Ok(None);
    }
    var id := v.index[first.value];
    r := if id in v.meta then Ok(Some(id)) else Err(IncompleteHistory);
  }

  ghost predicate PastClock(log: Log, clock: Clock, u: OpId)
    requires u in log
  {
    log[u].pos > Get(clock, log[u].actor)
  }

  /** The queue of the actors in `seen`: what lies past the clock is led by it. */
  ghost predicate Filled(log: Log, clock: Clock, seen: set<ActorId>, next: set<OpId>) {
    && Queue(log, next, {})
    && (forall f <- next :: log[f].actor in seen && PastClock(log, clock, f))
    && (forall u <- log :: log[u].actor in seen && PastClock(log, clock, u) ==> Leads(log, next, u))
  }

  lemma FillStep(log: Log, clock: Clock, seen: set<ActorId>, next: set<OpId>, a: ActorId, z: Option<OpId>)
    requires Filled(log, clock, seen, next) && a !in seen && Follows(log, a, Get(clock, a), z)
    ensures Filled(log, clock, seen + {a}, next + if z.Some? then {z.value} else {})
  {
  }

  /** Each actor's next operation past the clock. */
  method FillQueue(v: View, clock: Clock, ghost log: Log) returns (r: Result<set<OpId>, PageError>)
    requires IndexMatches(v.index, log) && TipsMatch(v.tips, log)
    ensures r.Ok? ==> Filled(log, clock, v.tips.Keys, r.value) && r.value <= v.meta.Keys
    ensures v.meta.Keys == log.Keys ==> r.Ok?
  {
    hide Filled, Follows, IndexMatches, TipsMatch;
    var next: set<OpId> := {};
    var todo := v.tips.Keys;
    assert Filled(log, clock, v.tips.Keys - todo, next) by { FillNone(log, clock); }
    while todo != {}
      invariant todo <= v.tips.Keys && next <= v.meta.Keys
      invariant Filled(log, clock, v.tips.Keys - todo, next)
      decreases todo
    {
      var a :| a in todo;
      var after := Get(clock, a);
      var z: Option<OpId> := None;
      if v.tips[a].0 > after {
        var unread := Unread(v, a, after, log);
        if unread.Err? {
          return Err(unread.error);
        }
        z := unread.value;
      } else {
        assert Follows(log, a, after, z) by { TipFollows(v, log, a, after); }
      }
      FillStep(log, clock, v.tips.Keys - todo, next, a, z);
      assert v.tips.Keys - todo + {a} == v.tips.Keys - (todo - {a});
      next := next + if z.Some? then {z.value} else {};
      todo := todo - {a};
    }
    assert v.tips.Keys - todo == v.tips.Keys;
    r := Ok(next);
  }

  lemma FillNone(log: Log, clock: Clock)
    ensures forall none: set<ActorId> :: none == {} ==> Filled(log, clock, none, {})
  {
  }

  lemma TipFollows(v: View, log: Log, a: ActorId, after: u64)
    requires TipsMatch(v.tips, log) && a in v.tips && v.tips[a].0 <= after
    ensures Follows(log, a, after, None)
  {
  }

  lemma FilledIsHeads(v: View, log: Log, read: set<OpId>, clock: Clock, next: set<OpId>)
    requires Regular(log) && Exact(log, read, clock) && TipsMatch(v.tips, log)
    requires Filled(log, clock, v.tips.Keys, next)
    ensures Heads(log, next, read)
  {
    hide Exact, Closed, Chained, ForkFree;
    forall u | u in log
      ensures u in read <==> !PastClock(log, clock, u)
    {
      ExactCovers(log, read, clock, u);
    }
  }

  /** The least waiting operation by generation and id. */
  method PopLeast(v: View, next: set<OpId>, ghost log: Log) returns (x: OpId)
    requires next != {} && next <= v.meta.Keys && Mirrors(v, log)
    ensures x in next && forall y <- next :: y != x ==> Before(log[x], log[y])
  {
    x :| x in next;
    var rest := next - {x};
    while rest != {}
      invariant x in next && rest <= next && x !in rest
      invariant forall y <- next - rest :: y != x ==> Before(log[x], log[y])
      decreases rest
    {
      var y :| y in rest;
      if v.meta[y].gen < v.meta[x].gen || (v.meta[y].gen == v.meta[x].gen && y < x) {
        x := y;
      }
      rest := rest - {y};
    }
  }

  /** Held metadata repeats the header of its operation. */
  ghost predicate Mirrors(v: View, log: Log) {
    forall id <- v.meta :: id in log && log[id].id == id && v.meta[id] == MetaOf(log[id], v.meta[id].clock)
  }

  lemma StoreMirrors(v: View, log: Log)
    requires Represents(v, log)
    ensures Mirrors(v, log) && IndexMatches(v.index, log) && TipsMatch(v.tips, log)
  {
  }

  ghost predicate DepRead(log: Log, clock: Clock, page: set<OpId>, d: OpId) {
    d in page || (d in log && !PastClock(log, clock, d))
  }

  /** True when nothing in `deps` lies past both the clock and the page. */
  method DepsCovered(v: View, clock: Clock, page: set<OpId>, deps: set<OpId>, ghost log: Log)
    returns (r: Result<bool, PageError>)
    requires Mirrors(v, log)
    ensures r.Ok? ==> (r.value <==> forall d <- deps :: DepRead(log, clock, page, d))
    ensures deps <= v.meta.Keys ==> r.Ok?
  {
    var todo := deps;
    while todo != {}
      invariant todo <= deps && forall d <- deps - todo :: DepRead(log, clock, page, d)
      decreases todo
    {
      var d :| d in todo;
      if d !in page {
        if d !in v.meta {
          return Err(IncompleteHistory);
        }
        if Get(clock, v.meta[d].actor) < v.meta[d].pos {
          return Ok(false);
        }
      }
      todo := todo - {d};
    }
    r := Ok(true);
  }

  /** Nothing unread outside the page comes before something in it. */
  ghost predicate LeastUnread(log: Log, read: set<OpId>, page: set<OpId>) {
    && page <= log.Keys - read
    && (forall x <- page, y <- log.Keys - read - page :: Before(log[x], log[y]))
  }

  /** Progress of a page from any cursor. */
  ghost predicate Choosing(log: Log, clock: Clock, next: set<OpId>, popped: set<OpId>, page: set<OpId>) {
    && Queue(log, next, popped)
    && page <= popped
    && (forall x <- page, d <- log[x].deps :: DepRead(log, clock, page, d))
  }

  /** Progress of a page from a cursor that stands on `read`: nothing is refused. */
  ghost predicate ChoosingExact(log: Log, read: set<OpId>, next: set<OpId>, popped: set<OpId>, page: set<OpId>) {
    && page == popped
    && Heads(log, next, read + page)
    && DownClosed(log, read + page)
    && LeastUnread(log, read, page)
  }

  lemma ExactJoins(log: Log, read: set<OpId>, clock: Clock, next: set<OpId>, popped: set<OpId>, page: set<OpId>,
                   x: OpId)
    requires Regular(log) && Exact(log, read, clock) && ChoosingExact(log, read, next, popped, page) && x in next
    requires forall y <- next :: y != x ==> Before(log[x], log[y])
    ensures forall d <- log[x].deps :: DepRead(log, clock, page, d)
    ensures LeastUnread(log, read, page + {x}) && DownClosed(log, read + (page + {x}))
  {
    hide Exact, Closed, Chained, ForkFree, Heads, Before;
    LeastIsReady(log, next, read + page, x);
    HeadsUnread(log, next, read + page, x);
    forall d | d in log[x].deps
      ensures DepRead(log, clock, page, d)
    {
      if d !in page {
        ExactCovers(log, read, clock, d);
      }
    }
    assert read + (page + {x}) == read + page + {x};
  }

  lemma HeadsUnread(log: Log, next: set<OpId>, done: set<OpId>, x: OpId)
    requires Heads(log, next, done) && x in next
    ensures x in log && x !in done
  {
  }

  lemma ChooseStep(log: Log, clock: Clock, next: set<OpId>, popped: set<OpId>, page: set<OpId>, x: OpId,
                   z: Option<OpId>)
    requires Choosing(log, clock, next, popped, page) && x in next
    requires forall d <- log[x].deps :: DepRead(log, clock, page, d)
    requires Follows(log, log[x].actor, log[x].pos, z)
    ensures Choosing(log, clock, next - {x} + (if z.Some? then {z.value} else {}), popped + {x}, page + {x})
  {
    hide Follows;
    FollowsAfter(log, log[x].actor, log[x].pos, z);
    QueueStep(log, next, popped, x, z);
    assert z.None? ==> next - {x} + {} == next - {x};
    forall y, d | y in page + {x} && d in log[y].deps
      ensures DepRead(log, clock, page + {x}, d)
    {
      assert DepRead(log, clock, page, d);
    }
  }

  lemma FollowsAfter(log: Log, actor: ActorId, after: int, z: Option<OpId>)
    requires Follows(log, actor, after, z)
    ensures z.Some? ==> z.value in log && log[z.value].actor == actor && log[z.value].pos > after
  {
  }

  lemma RefuseStep(log: Log, clock: Clock, next: set<OpId>, popped: set<OpId>, page: set<OpId>, x: OpId)
    requires Choosing(log, clock, next, popped, page) && x in next
    ensures Choosing(log, clock, next - {x}, popped + {x}, page)
  {
  }

  lemma ExactStep(log: Log, read: set<OpId>, next: set<OpId>, popped: set<OpId>, page: set<OpId>, x: OpId,
                  z: Option<OpId>)
    requires Regular(log) && ChoosingExact(log, read, next, popped, page) && x in next
    requires Follows(log, log[x].actor, log[x].pos, z)
    requires LeastUnread(log, read, page + {x}) && DownClosed(log, read + (page + {x}))
    ensures ChoosingExact(log, read, next - {x} + (if z.Some? then {z.value} else {}), popped + {x}, page + {x})
  {
    hide Closed, Chained, ForkFree, Heads, Before, LeastUnread, DownClosed;
    HeadsStep(log, next, read + page, x, z);
    assert read + (page + {x}) == read + page + {x};
  }

  lemma QueueFresh(log: Log, clock: Clock, next: set<OpId>, popped: set<OpId>, page: set<OpId>, x: OpId)
    requires Choosing(log, clock, next, popped, page) && x in next
    ensures x in log && x !in popped && popped <= log.Keys
  {
  }

  /**
   Takes waiting operations, least first, while the page has room; an operation joins when its
   dependencies are covered.
   */
  method ChoosePage(v: View, clock: Clock, limit: nat, first: set<OpId>, ghost log: Log, ghost read: set<OpId>)
    returns (r: Result<set<OpId>, PageError>)
    requires Regular(log) && Mirrors(v, log) && IndexMatches(v.index, log)
    requires Queue(log, first, {}) && first <= v.meta.Keys
    requires Exact(log, read, clock) ==> Heads(log, first, read)
    ensures r.Ok? ==> r.value <= v.meta.Keys && r.value <= log.Keys && |r.value| <= limit
    ensures r.Ok? ==> forall x <- r.value, d <- log[x].deps :: DepRead(log, clock, r.value, d)
    ensures v.meta.Keys == log.Keys ==> r.Ok?
    ensures r.Ok? && Exact(log, read, clock) ==>
      && LeastUnread(log, read, r.value) && DownClosed(log, read + r.value)
      && (|r.value| == limit || r.value == log.Keys - read)
  {
    hide Regular, Mirrors, IndexMatches, Queue, Exact, Heads, Choosing, ChoosingExact, Follows;
    hide LeastUnread, DownClosed, DepRead, Before;
    var next, page := first, {};
    ghost var popped: set<OpId> := {};
    ChooseStart(log, clock, read, first);
    while |page| < limit && next != {}
      invariant Choosing(log, clock, next, popped, page)
      invariant Exact(log, read, clock) ==> ChoosingExact(log, read, next, popped, page)
      invariant next <= v.meta.Keys && page <= v.meta.Keys && |page| <= limit && page <= popped
      decreases log.Keys - popped
    {
      var x := PopLeast(v, next, log);
      QueueFresh(log, clock, next, popped, page, x);
      assert v.meta[x].deps == log[x].deps && v.meta[x].actor == log[x].actor && v.meta[x].pos == log[x].pos by {
        MirrorsAt(v, log, x);
      }
      if Exact(log, read, clock) {
        ExactJoins(log, read, clock, next, popped, page, x);
      }
      var joins := DepsCovered(v, clock, page, v.meta[x].deps, log);
      if joins.Err? {
        DepsHeld(log, x);
        return Err(joins.error);
      }
      if joins.value {
        var unread := Unread(v, v.meta[x].actor, v.meta[x].pos, log);
        if unread.Err? {
          return Err(unread.error);
        }
        ChooseStep(log, clock, next, popped, page, x, unread.value);
        if Exact(log, read, clock) {
          ExactStep(log, read, next, popped, page, x, unread.value);
        }
        next := next - {x} + if unread.value.Some? then {unread.value.value} else {};
        page := page + {x};
      } else {
        RefuseStep(log, clock, next, popped, page, x);
        next := next - {x};
      }
      popped := popped + {x};
    }
    ChooseEnd(log, clock, read, next, popped, page);
    r := Ok(page);
  }

  lemma DepsHeld(log: Log, x: OpId)
    requires Regular(log) && x in log
    ensures log[x].deps <= log.Keys
  {
  }

  lemma MirrorsAt(v: View, log: Log, x: OpId)
    requires Mirrors(v, log) && x in v.meta
    ensures x in log && v.meta[x].deps == log[x].deps && v.meta[x].actor == log[x].actor && v.meta[x].pos == log[x].pos
  {
  }

  lemma ChooseStart(log: Log, clock: Clock, read: set<OpId>, next: set<OpId>)
    requires Queue(log, next, {})
    requires Exact(log, read, clock) ==> Heads(log, next, read)
    ensures Choosing(log, clock, next, {}, {})
    ensures Exact(log, read, clock) ==> ChoosingExact(log, read, next, {}, {})
  {
  }

  lemma NoLead(log: Log, u: OpId)
    requires u in log
    ensures !Leads(log, {}, u)
  {
  }

  lemma NoneLeft(log: Log, done: set<OpId>)
    requires Heads(log, {}, done)
    ensures log.Keys <= done
  {
    forall u | u in log
      ensures u in done
    {
      NoLead(log, u);
    }
  }

  lemma ChooseEnd(log: Log, clock: Clock, read: set<OpId>, next: set<OpId>, popped: set<OpId>, page: set<OpId>)
    requires Choosing(log, clock, next, popped, page)
    requires Exact(log, read, clock) ==> ChoosingExact(log, read, next, popped, page)
    ensures page <= log.Keys
    ensures forall x <- page, d <- log[x].deps :: DepRead(log, clock, page, d)
    ensures Exact(log, read, clock) ==> LeastUnread(log, read, page) && DownClosed(log, read + page)
    ensures Exact(log, read, clock) && next == {} ==> page == log.Keys - read
  {
    hide Exact, DepRead, Before;
    if Exact(log, read, clock) && next == {} {
      NoneLeft(log, read + page);
      assert page == log.Keys - read;
    }
  }

  // ---- the page as returned ----

  function SnapshotOf(v: View): Snapshot {
    Snapshot(map id | id in v.ops && id in v.meta :: v.ops[id], v.ops.Keys * v.meta.Keys)
  }

  /** Where reading the operations of `entries` moves the clock. */
  method Advance(clock: Clock, entries: seq<Op>, ghost log: Log, ghost read: set<OpId>) returns (moved: Clock)
    requires forall i :: 0 <= i < |entries| ==> entries[i].id in log && log[entries[i].id] == entries[i]
    ensures read <= log.Keys && ReadUpTo(log, read, clock) ==> ReadUpTo(log, read + Emitted(entries), moved)
  {
    hide ReadUpTo, Emitted;
    moved := clock;
    EmittedNone(entries, read);
    for i := 0 to |entries|
      invariant read <= log.Keys && Emitted(entries[..i]) <= log.Keys ==>
        ReadUpTo(log, read, clock) ==> ReadUpTo(log, read + Emitted(entries[..i]), moved)
      invariant Emitted(entries[..i]) <= log.Keys
    {
      assert entries[..i + 1] == entries[..i] + [entries[i]];
      EmittedAppend(entries[..i], entries[i]);
      if read <= log.Keys && ReadUpTo(log, read, clock) {
        ReadOne(log, read + Emitted(entries[..i]), moved, entries[i]);
        assert read + Emitted(entries[..i]) + {entries[i].id} == read + Emitted(entries[..i + 1]);
      }
      moved := Observe(moved, entries[i].actor, entries[i].pos);
    }
    assert entries[..|entries|] == entries;
  }

  lemma EmittedNone(entries: seq<Op>, read: set<OpId>)
    ensures Emitted(entries[..0]) == {} && read + Emitted(entries[..0]) == read
  {
  }

  lemma ReadOne(log: Log, read: set<OpId>, clock: Clock, op: Op)
    requires read <= log.Keys && ReadUpTo(log, read, clock) && op.id in log && log[op.id] == op
    ensures ReadUpTo(log, read + {op.id}, Observe(clock, op.actor, op.pos))
  {
  }

  /** No limit is the greatest one, and a page has room for one operation at least. */
  /** No more entries than the caller asked for; without a limit, than a word counts. A limit of zero asks for one. */
  ghost predicate WithinLimit(limit: Option<nat>, entries: seq<Op>) {
    match limit
    case None => |entries| <= U64_MAX
    case Some(n) => |entries| <= n || (n == 0 && |entries| == 1)
  }

  /**
   What the caller asked for: all that is unread when there is no more of it than the limit, otherwise
   the limit's number of operations, none of which is after one that is left by generation and then id.
   */
  ghost predicate AsAsked(limit: Option<nat>, log: Log, read: set<OpId>, entries: seq<Op>) {
    var (ids, unread) := (Emitted(entries), log.Keys - read);
    && ids <= unread && |ids| == |entries|
    && (forall x <- ids, y <- unread - ids ::
          log[x].gen < log[y].gen || (log[x].gen == log[y].gen && x < y))
    && (ids == unread ||
        match limit
        case None => |entries| == U64_MAX
        case Some(n) => |entries| == n > 0 || (n == 0 && |entries| == 1))
  }

  lemma DeliversLimit(log: Log, cursor: Cursor, limit: Option<nat>, page: Page)
    requires Delivers(log, cursor, Room(limit), page)
    ensures WithinLimit(limit, page.entries)
  {
    hide DepRead, Emitted;
  }

  lemma NextAsAsked(log: Log, cursor: Cursor, read: set<OpId>, limit: Option<nat>, page: Page)
    requires Regular(log) && Delivers(log, cursor, Room(limit), page) && DeliversNext(log, read, Room(limit), page)
    ensures AsAsked(limit, log, read, page.entries)
  {
    hide Emitted, DepRead, Exact, LeastUnread, Closed, Chained, ForkFree;
    LeastIsFirst(log, read, Emitted(page.entries));
  }

  lemma LeastIsFirst(log: Log, read: set<OpId>, page: set<OpId>)
    requires Closed(log) && LeastUnread(log, read, page)
    ensures page <= log.Keys - read
    ensures forall x <- page, y <- log.Keys - read - page ::
      log[x].gen < log[y].gen || (log[x].gen == log[y].gen && x < y)
  {
    forall x, y | x in page && y in log.Keys - read - page
      ensures log[x].gen < log[y].gen || (log[x].gen == log[y].gen && x < y)
    {
      assert Before(log[x], log[y]);
    }
  }

  function Room(limit: Option<nat>): nat {
    Max(if limit.Some? then limit.value else U64_MAX, 1)
  }

  datatype Page = Page(entries: seq<Op>, cursor: Cursor)

  /** What any page promises: its operations in causal order, each with its dependencies covered. */
  ghost predicate Delivers(log: Log, cursor: Cursor, limit: nat, page: Page) {
    var ids := Emitted(page.entries);
    && |page.entries| == |ids| <= limit
    && (forall i :: 0 <= i < |page.entries| ==>
          page.entries[i].id in log && log[page.entries[i].id] == page.entries[i])
    && (forall i, d :: 0 <= i < |page.entries| && d in page.entries[i].deps ==>
          DepRead(log, cursor.clock, Emitted(page.entries[..i]), d))
    && page.cursor.genesis == cursor.genesis
  }

  /** What a page promises a reader of exactly `read`. */
  ghost predicate DeliversNext(log: Log, read: set<OpId>, limit: nat, page: Page) {
    var ids := Emitted(page.entries);
    && LeastUnread(log, read, ids)
    && (|ids| == limit || ids == log.Keys - read)
    && Exact(log, read + ids, page.cursor.clock)
  }

  lemma StoreRegular(v: View, log: Log)
    requires Represents(v, log)
    ensures Regular(log) && OpsMatch(v.ops, log)
  {
    hide Good, MetasMatch, IndexesMatch, StateMatches, OpsMatch;
    GoodIsRegular(log);
  }

  lemma FilledQueue(v: View, log: Log, read: set<OpId>, clock: Clock, next: set<OpId>)
    requires Regular(log) && TipsMatch(v.tips, log) && Filled(log, clock, v.tips.Keys, next)
    ensures Queue(log, next, {})
    ensures Exact(log, read, clock) ==> Heads(log, next, read)
  {
    hide Regular, TipsMatch, Exact, Queue, Heads, PastClock, Leads;
    if Exact(log, read, clock) {
      FilledIsHeads(v, log, read, clock, next);
    }
  }

  lemma WholePage(v: View, log: Log, page: set<OpId>)
    requires Regular(log) && OpsMatch(v.ops, log)
    ensures Named(SnapshotOf(v).meta)
    ensures Extends(Whole(SnapshotOf(v), page), log) && Whole(SnapshotOf(v), page).Keys <= page
    ensures Complete(v, log) && page <= log.Keys ==>
      Whole(SnapshotOf(v), page).Keys == page && !Cyclic(Whole(SnapshotOf(v), page))
  {
    hide Chained, ForkFree, Cyclic, Deferred;
    var s := SnapshotOf(v);
    if Complete(v, log) && page <= log.Keys {
      forall x | x in page
        ensures !Deferred(s, page, x)
      {
        NotDeferred(v, log, page, x);
      }
      Oplog.GoodIsAcyclic(log, Whole(s, page));
    }
  }

  lemma NotDeferred(v: View, log: Log, page: set<OpId>, x: OpId)
    requires Closed(log) && OpsMatch(v.ops, log) && Complete(v, log) && page <= log.Keys
    ensures !Deferred(SnapshotOf(v), page, x)
  {
  }

  /** The loaded page: what Delivers says once the order is known. */
  lemma OrderedPage(log: Log, cursor: Cursor, batch: Batch, page: set<OpId>, entries: seq<Op>, moved: Clock)
    requires Causal(batch, entries) && Emitted(entries) == batch.Keys == page && Extends(batch, log)
    requires forall x <- page, d <- log[x].deps :: DepRead(log, cursor.clock, page, d)
    ensures Delivers(log, cursor, |page|, Page(entries, Cursor(cursor.genesis, moved)))
  {
    hide Causal, Emitted, DepRead;
    CausalMeans(batch, entries);
    forall i, d | 0 <= i < |entries| && d in entries[i].deps
      ensures DepRead(log, cursor.clock, Emitted(entries[..i]), d)
    {
      assert entries[i].id in batch && log[entries[i].id] == entries[i];
      assert DepRead(log, cursor.clock, page, d);
      DepReadPart(log, cursor.clock, page, Emitted(entries[..i]), d);
    }
  }

  lemma DepReadPart(log: Log, clock: Clock, page: set<OpId>, part: set<OpId>, d: OpId)
    requires DepRead(log, clock, page, d) && (d in page ==> d in part)
    ensures DepRead(log, clock, part, d)
  {
  }

  /** Loads the chosen operations in causal order and moves the cursor past them. */
  method LoadPage(v: View, cursor: Cursor, limit: nat, page: set<OpId>, ghost log: Log, ghost read: set<OpId>)
    returns (r: Result<Page, PageError>)
    requires Regular(log) && OpsMatch(v.ops, log) && page <= log.Keys && |page| <= limit
    requires forall x <- page, d <- log[x].deps :: DepRead(log, cursor.clock, page, d)
    ensures r.Ok? ==> Delivers(log, cursor, limit, r.value) && Emitted(r.value.entries) == page
    ensures Complete(v, log) ==> r.Ok?
    ensures r.Ok? && Exact(log, read, cursor.clock) ==> ReadUpTo(log, read + page, r.value.cursor.clock)
  {
    hide Regular, OpsMatch, Causal, Cyclic, Whole, DepRead, Emitted, ReadUpTo, Named, Deferred, Extends;
    WholePage(v, log, page);
    var entries := TopologicalMeta(SnapshotOf(v), page);
    if entries.None? {
      return Err(CycleInGraph);
    }
    ghost var batch := Whole(SnapshotOf(v), page);
    CausalMeans(batch, entries.value);
    if |entries.value| != |page| {
      return Err(IncompleteHistory);
    }
    SameSize(batch.Keys, page);
    CausalHeld(batch, log, entries.value);
    var moved := Advance(cursor.clock, entries.value, log, read);
    OrderedPage(log, cursor, batch, page, entries.value, moved);
    r := Ok(Page(entries.value, Cursor(cursor.genesis, moved)));
    DeliversMore(log, cursor, |page|, limit, r.value);
  }

  lemma DeliversMore(log: Log, cursor: Cursor, few: nat, many: nat, page: Page)
    requires Delivers(log, cursor, few, page) && few <= many
    ensures Delivers(log, cursor, many, page)
  {
  }

  lemma CausalHeld(batch: Batch, log: Log, entries: seq<Op>)
    requires Causal(batch, entries) && Extends(batch, log)
    ensures forall i :: 0 <= i < |entries| ==> entries[i].id in log && log[entries[i].id] == entries[i]
  {
    hide Causal;
    CausalMeans(batch, entries);
  }

  /**
   The operations after a cursor, at most `limit` of them. From a cursor that stands on a
   dependency-closed set of a whole topic nothing is refused and the page is the next one.
   */
  method HistoryPage(v: View, whole: bool, cursor: Cursor, limit: Option<nat>, ghost log: Log, ghost read: set<OpId>)
    returns (r: Result<Page, PageError>)
    requires Represents(v, log)
    ensures !whole ==> r == Err(IncompleteHistory)
    ensures whole && v.state.None? ==> r == Err(TopicNotFound)
    ensures whole && v.state.Some? && v.state.value.genesis != cursor.genesis ==> r == Err(StaleIncarnation)
    ensures r.Ok? ==> Delivers(log, cursor, Room(limit), r.value) && WithinLimit(limit, r.value.entries)
    ensures
      whole && v.state.Some? && v.state.value.genesis == cursor.genesis
      && Complete(v, log) && Exact(log, read, cursor.clock) ==>
        && r.Ok? && DeliversNext(log, read, Room(limit), r.value)
        && AsAsked(limit, log, read, r.value.entries)
  {
    hide Represents, Delivers, DeliversNext, Regular, Mirrors, IndexMatches, TipsMatch, Filled, Exact;
    hide LeastUnread, DownClosed, DepRead, Queue, Heads, Emitted, ReadUpTo, OpsMatch, Room;
    if !whole {
      return Err(IncompleteHistory);
    }
    if v.state.None? {
      return Err(TopicNotFound);
    }
    if v.state.value.genesis != cursor.genesis {
      return Err(StaleIncarnation);
    }
    StoreRegular(v, log);
    StoreMirrors(v, log);
    var most := Room(limit);
    var next := FillQueue(v, cursor.clock, log);
    if next.Err? {
      return Err(next.error);
    }
    FilledQueue(v, log, read, cursor.clock, next.value);
    var page := ChoosePage(v, cursor.clock, most, next.value, log, read);
    if page.Err? {
      return Err(page.error);
    }
    r := LoadPage(v, cursor, most, page.value, log, read);
    if r.Ok? {
      DeliversLimit(log, cursor, limit, r.value);
      if Exact(log, read, cursor.clock) {
        NextPage(log, read, most, r.value);
      }
      if DeliversNext(log, read, most, r.value) {
        NextAsAsked(log, cursor, read, limit, r.value);
      }
    }
  }

  lemma NextPage(log: Log, read: set<OpId>, limit: nat, page: Page)
    requires DownClosed(log, read + Emitted(page.entries)) && LeastUnread(log, read, Emitted(page.entries))
    requires |Emitted(page.entries)| == limit || Emitted(page.entries) == log.Keys - read
    requires ReadUpTo(log, read + Emitted(page.entries), page.cursor.clock)
    ensures DeliversNext(log, read, limit, page)
  {
    hide Emitted, LeastUnread, ReadUpTo;
  }
}
