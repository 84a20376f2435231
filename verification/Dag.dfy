/**
 The admitted history of one topic: signed operations whose dependencies form a
 graph. Ancestry, gap-free actor chains and observed clocks are defined here over
 the whole history, with none of the shortcuts admission takes.
 */
module Dag {
  import opened Prelude

  datatype Policy = Policy(selected: set<PeerId>, maxSyncPeers: nat)

  datatype Control =
    | AddPeer(peer: PeerId)
    | RemovePeer(peer: PeerId)
    | SetPolicy(policy: Policy)

  datatype Payload =
    | Genesis(eventType: string, initialPeers: set<PeerId>, policy: Policy)
    | Event(typeId: string)
    | Change(control: Control)

  datatype Op = Op(
    id: OpId,
    author: PeerId,
    actor: ActorId,
    pos: u64,
    prev: Option<OpId>,
    deps: set<OpId>,
    gen: u64,
    payload: Payload)

  /** A history: each id names the one operation it is the hash of. */
  type Log = map<OpId, Op>

  /** Dependencies are held, and generations strictly grow along them. */
  ghost predicate Closed(log: Log) {
    forall id <- log ::
      && log[id].id == id
      && log[id].deps <= log.Keys
      && forall d <- log[id].deps :: log[d].gen < log[id].gen
  }

  /** `a` is reached from `b` over one or more dependency edges. */
  ghost predicate Ancestor(log: Log, a: OpId, b: OpId)
    requires Closed(log) && b in log
    decreases log[b].gen
  {
    exists d :: d in log[b].deps && (a == d || Ancestor(log, a, d))
  }

  /** `ids` with everything they depend on. */
  ghost function Below(log: Log, ids: set<OpId>): (below: set<OpId>)
    requires Closed(log)
    ensures below <= log.Keys
  {
    set x <- log | x in ids || exists d :: d in ids && d in log && Ancestor(log, x, d)
  }

  ghost predicate DownClosed(log: Log, s: set<OpId>) {
    s <= log.Keys && forall x <- s :: log[x].deps <= s
  }

  ghost predicate Extends(log: Log, more: Log) {
    forall id <- log :: id in more && more[id] == log[id]
  }

  lemma {:induction false} AncestorIsLower(log: Log, a: OpId, b: OpId)
    requires Closed(log) && b in log && Ancestor(log, a, b)
    ensures a in log && log[a].gen < log[b].gen
    decreases log[b].gen
  {
    var d :| d in log[b].deps && (a == d || Ancestor(log, a, d));
    if a != d {
      AncestorIsLower(log, a, d);
    }
  }

  lemma {:induction false} AncestorTransitive(log: Log, a: OpId, b: OpId, c: OpId)
    requires Closed(log) && c in log && b in log
    requires Ancestor(log, a, b) && Ancestor(log, b, c)
    ensures Ancestor(log, a, c)
    decreases log[c].gen
  {
    var d :| d in log[c].deps && (b == d || Ancestor(log, b, d));
    if b != d {
      AncestorTransitive(log, a, b, d);
    }
  }

  lemma BelowIsClosed(log: Log, ids: set<OpId>)
    requires Closed(log) && ids <= log.Keys
    ensures ids <= Below(log, ids)
    ensures DownClosed(log, Below(log, ids))
  {
    forall x, y | x in Below(log, ids) && y in log[x].deps
      ensures y in Below(log, ids)
    {
      assert Ancestor(log, y, x);
      if x !in ids {
        var d :| d in ids && Ancestor(log, x, d);
        AncestorTransitive(log, y, x, d);
      }
    }
  }

  lemma {:induction false} AncestorInDownClosed(log: Log, s: set<OpId>, a: OpId, b: OpId)
    requires Closed(log) && DownClosed(log, s) && b in s && Ancestor(log, a, b)
    ensures a in s
    decreases log[b].gen
  {
    var d :| d in log[b].deps && (a == d || Ancestor(log, a, d));
    if a != d {
      AncestorInDownClosed(log, s, a, d);
    }
  }

  /** `Below` is the least dependency-closed set around `ids`. */
  lemma BelowIsLeast(log: Log, ids: set<OpId>, s: set<OpId>)
    requires Closed(log) && DownClosed(log, s) && ids <= s
    ensures Below(log, ids) <= s
  {
    forall x | x in Below(log, ids)
      ensures x in s
    {
      if x !in ids {
        var d :| d in ids && Ancestor(log, x, d);
        AncestorInDownClosed(log, s, x, d);
      }
    }
  }

  /** What an operation depends on does not change as the history grows. */
  lemma BelowFrame(log: Log, more: Log, ids: set<OpId>)
    requires Closed(log) && Closed(more) && Extends(log, more) && ids <= log.Keys
    ensures Below(more, ids) == Below(log, ids)
  {
    BelowIsClosed(log, ids);
    BelowIsClosed(more, ids);
    assert DownClosed(more, Below(log, ids));
    BelowIsLeast(more, ids, Below(log, ids));
    assert DownClosed(log, Below(more, ids));
    BelowIsLeast(log, ids, Below(more, ids));
  }

  lemma BelowUnion(log: Log, a: set<OpId>, b: set<OpId>)
    requires Closed(log)
    ensures Below(log, a + b) == Below(log, a) + Below(log, b)
  {
  }

  // ---- actor chains ----

  /** `op` follows its actor's previous operation, which it depends on. */
  ghost predicate ChainLink(log: Log, op: Op) {
    && 1 <= op.pos
    && (op.pos == 1 <==> op.prev.None?)
    && (op.prev.Some? ==>
          && op.prev.value in op.deps
          && op.prev.value in log
          && log[op.prev.value].actor == op.actor
          && log[op.prev.value].pos + 1 == op.pos)
  }

  ghost predicate Chained(log: Log) {
    forall id <- log :: ChainLink(log, log[id])
  }

  /** No two operations share an actor position. */
  ghost predicate ForkFree(log: Log) {
    forall x <- log, y <- log ::
      log[x].actor == log[y].actor && log[x].pos == log[y].pos ==> x == y
  }

  /** Every earlier position of an actor is held, below the later one. */
  lemma {:induction false} ChainHolds(log: Log, s: set<OpId>, x: OpId, pos: u64)
    requires Closed(log) && Chained(log) && DownClosed(log, s) && x in s
    requires 1 <= pos <= log[x].pos
    ensures exists y :: y in s && log[y].actor == log[x].actor && log[y].pos == pos
    decreases log[x].pos
  {
    assert ChainLink(log, log[x]);
    if pos < log[x].pos {
      ChainHolds(log, s, log[x].prev.value, pos);
    }
  }

  // ---- observed clocks ----

  /** `c` is the clock of the operations in `s`: each actor at its latest position. */
  ghost predicate IsClock(log: Log, s: set<OpId>, c: Clock)
    requires s <= log.Keys
  {
    && (forall x <- s :: log[x].actor in c && log[x].pos <= c[log[x].actor])
    && (forall a <- c :: exists x :: x in s && log[x].actor == a && log[x].pos == c[a])
  }

  lemma ClockUnique(log: Log, s: set<OpId>, c: Clock, d: Clock)
    requires s <= log.Keys && IsClock(log, s, c) && IsClock(log, s, d)
    ensures c == d
  {
    forall a | a in c || a in d
      ensures a in c && a in d && c[a] == d[a]
    {
      if a in c {
        var x :| x in s && log[x].actor == a && log[x].pos == c[a];
      }
      if a in d {
        var x :| x in s && log[x].actor == a && log[x].pos == d[a];
      }
    }
  }

  /**
   A clock covers exactly the positions of the operations it was taken from: on a
   dependency-closed part of a fork-free history, one number per actor says which
   operations are in it.
   */
  lemma ClockCovers(log: Log, s: set<OpId>, c: Clock, x: OpId)
    requires Closed(log) && Chained(log) && ForkFree(log)
    requires DownClosed(log, s) && IsClock(log, s, c) && x in log
    ensures x in s <==> log[x].pos <= Get(c, log[x].actor)
  {
    assert ChainLink(log, log[x]);
    if log[x].pos <= Get(c, log[x].actor) {
      var y :| y in s && log[y].actor == log[x].actor && log[y].pos == c[log[x].actor];
      ChainHolds(log, s, y, log[x].pos);
    }
  }

  /** Pointwise maximum on the union of both domains. */
  function Merge(c: Clock, d: Clock): (r: Clock)
    ensures r.Keys == c.Keys + d.Keys
    ensures forall a :: Get(r, a) == Max(Get(c, a), Get(d, a))
  {
    map a | a in c.Keys + d.Keys :: Max(Get(c, a), Get(d, a))
  }

  function Observe(c: Clock, a: ActorId, s: u64): (r: Clock)
    ensures r.Keys == c.Keys + {a}
    ensures forall b :: Get(r, b) == if b == a then Max(Get(c, b), s) else Get(c, b)
  {
    c[a := Max(Get(c, a), s)]
  }

  lemma MergeClock(log: Log, s: set<OpId>, t: set<OpId>, c: Clock, d: Clock)
    requires s <= log.Keys && t <= log.Keys && IsClock(log, s, c) && IsClock(log, t, d)
    ensures IsClock(log, s + t, Merge(c, d))
  {
    var r := Merge(c, d);
    forall a | a in r
      ensures exists x :: x in s + t && log[x].actor == a && log[x].pos == r[a]
    {
      assert Get(r, a) == Max(Get(c, a), Get(d, a));
      if a in c && (a !in d || d[a] <= c[a]) {
        var x :| x in s && log[x].actor == a && log[x].pos == c[a];
        assert x in s + t;
      } else {
        var x :| x in t && log[x].actor == a && log[x].pos == d[a];
        assert x in s + t;
      }
    }
    forall x | x in s + t
      ensures log[x].actor in r && log[x].pos <= r[log[x].actor]
    {
      assert Get(r, log[x].actor) == Max(Get(c, log[x].actor), Get(d, log[x].actor));
    }
  }

  lemma ObserveClock(log: Log, s: set<OpId>, c: Clock, x: OpId)
    requires s <= log.Keys && x in log && IsClock(log, s, c)
    ensures IsClock(log, s + {x}, Observe(c, log[x].actor, log[x].pos))
  {
    hide IsClock, Merge, Observe;
    var single: Clock := map[log[x].actor := log[x].pos];
    SingleClock(log, x);
    MergeClock(log, s, {x}, c, single);
    ObserveIsMerge(c, log[x].actor, log[x].pos);
  }

  lemma SingleClock(log: Log, x: OpId)
    requires x in log
    ensures IsClock(log, {x}, map[log[x].actor := log[x].pos])
  {
  }

  lemma ObserveIsMerge(c: Clock, a: ActorId, s: u64)
    ensures Observe(c, a, s) == Merge(c, map[a := s])
  {
    hide Observe, Merge;
    var (r, merged) := (Observe(c, a, s), Merge(c, map[a := s]));
    forall b | b in r
      ensures r[b] == merged[b]
    {
      assert Get(r, b) == Get(merged, b);
    }
  }

  lemma ClockFrame(log: Log, more: Log, s: set<OpId>, c: Clock)
    requires Extends(log, more) && s <= log.Keys && IsClock(log, s, c)
    ensures s <= more.Keys && IsClock(more, s, c)
  {
    forall a | a in c
      ensures exists x :: x in s && more[x].actor == a && more[x].pos == c[a]
    {
      var x :| x in s && log[x].actor == a && log[x].pos == c[a];
      assert more[x].actor == a && more[x].pos == c[a];
    }
  }

  /**
   In every admitted history, an operation's observed clock reaches position `s`
   of actor `a` if and only if the operation admitted there is its ancestor.
   */
  lemma ObservedClockIsAncestry(log: Log, b: OpId, c: Clock, x: OpId)
    requires Closed(log) && Chained(log) && ForkFree(log)
    requires b in log && x in log
    requires IsClock(log, Below(log, log[b].deps), c)
    ensures Ancestor(log, x, b) <==> log[x].pos <= Get(c, log[x].actor)
  {
    BelowIsClosed(log, log[b].deps);
    ClockCovers(log, Below(log, log[b].deps), c, x);
    AncestorsAreBelowDeps(log, b);
  }

  lemma AncestorsAreBelowDeps(log: Log, b: OpId)
    requires Closed(log) && b in log
    ensures forall x <- log :: Ancestor(log, x, b) <==> x in Below(log, log[b].deps)
    ensures Below(log, {b}) == {b} + Below(log, log[b].deps)
  {
  }
}
