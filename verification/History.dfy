/** Walks along predecessor links: depth first, predecessors before what names them. */
module History {
  import opened Prelude

  type Id = nat

  /** What the caller's predecessor function answers; no entry means no predecessors. */
  type Graph = map<Id, seq<Id>>

  datatype Order = OldestFirst | NewestFirst

  datatype Query = Query(heads: seq<Id>, order: Order, limit: Option<nat>, includeHeads: bool)

  ghost function Parents(graph: Graph, x: Id): seq<Id> {
    if x in graph then graph[x] else []
  }

  lemma ParentsOf(graph: Graph, x: Id)
    ensures Parents(graph, x) == if x in graph then graph[x] else []
  {
  }

  /** A chain of predecessor links that starts at a head. */
  ghost predicate Trail(graph: Graph, heads: seq<Id>, path: seq<Id>) {
    && path != []
    && path[0] in heads
    && (forall i :: 0 <= i < |path| - 1 ==> path[i + 1] in Parents(graph, path[i]))
  }

  ghost predicate Reachable(graph: Graph, heads: seq<Id>, x: Id) {
    exists path :: Trail(graph, heads, path) && path[|path| - 1] == x
  }

  lemma HeadReachable(graph: Graph, heads: seq<Id>, x: Id)
    requires x in heads
    ensures Reachable(graph, heads, x)
  {
    assert Trail(graph, heads, [x]) && [x][|[x]| - 1] == x;
  }

  lemma ParentReachable(graph: Graph, heads: seq<Id>, x: Id, p: Id)
    requires Reachable(graph, heads, x) && p in Parents(graph, x)
    ensures Reachable(graph, heads, p)
  {
    var path :| Trail(graph, heads, path) && path[|path| - 1] == x;
    var longer := path + [p];
    assert Trail(graph, heads, longer) && longer[|longer| - 1] == p;
  }

  lemma {:induction false} ReachableWithin(graph: Graph, heads: seq<Id>, done: set<Id>, path: seq<Id>)
    requires (forall x <- heads :: x in done) && Trail(graph, heads, path)
    requires forall x <- done, p <- Parents(graph, x) :: p in done
    ensures path[|path| - 1] in done
  {
    if |path| > 1 {
      var init := path[..|path| - 1];
      assert Trail(graph, heads, init);
      ReachableWithin(graph, heads, done, init);
      assert path[|path| - 1] in Parents(graph, init[|init| - 1]);
    }
  }

  /** No cycle: some rank falls along every predecessor link. */
  ghost predicate Ranked(graph: Graph, rank: Id -> nat) {
    forall x, p :: p in Parents(graph, x) ==> rank(p) < rank(x)
  }

  /** No id is reached from its own predecessors. */
  ghost predicate Acyclic(graph: Graph) {
    forall x, p :: p in Parents(graph, x) ==> !Reachable(graph, [p], x)
  }

  lemma ReachableThrough(graph: Graph, x: Id, p: Id, y: Id)
    requires p in Parents(graph, x) && Reachable(graph, [p], y)
    ensures Reachable(graph, [x], y)
  {
    var path :| Trail(graph, [p], path) && path[|path| - 1] == y;
    var longer := [x] + path;
    assert longer[0] == x && longer[1] == p;
    assert forall i :: 0 < i < |longer| - 1 ==> longer[i] == path[i - 1] && longer[i + 1] == path[i];
    assert Trail(graph, [x], longer) && longer[|longer| - 1] == y;
  }

  /** How many ids of the graph an id reaches: fewer from a predecessor, when there is no cycle. */
  ghost function Depth(graph: Graph, x: Id): nat {
    |set y <- graph.Keys | Reachable(graph, [x], y)|
  }

  ghost function RankOf(graph: Graph): Id -> nat {
    (x: Id) => Depth(graph, x)
  }

  lemma AcyclicIsRanked(graph: Graph)
    requires Acyclic(graph)
    ensures Ranked(graph, RankOf(graph))
  {
    hide Reachable;
    forall x, p | p in Parents(graph, x)
      ensures Depth(graph, p) < Depth(graph, x)
    {
      var (few, many) :=
        (set y <- graph.Keys | Reachable(graph, [p], y), set y <- graph.Keys | Reachable(graph, [x], y));
      forall y | y in few
        ensures y in many
      {
        ReachableThrough(graph, x, p, y);
      }
      HeadReachable(graph, [x], x);
      assert x in many && x !in few;
      Fewer(few, many, x);
    }
  }

  lemma Fewer(few: set<Id>, many: set<Id>, x: Id)
    requires few <= many && x in many && x !in few
    ensures |few| < |many|
  {
    assert many == few + (many - few) && x in many - few;
  }

  // ---- the walk ----

  datatype Frame = Frame(id: Id, expanded: bool)

  ghost predicate OnStack(stack: seq<Frame>, x: Id) {
    exists i :: 0 <= i < |stack| && stack[i].id == x
  }

  /** `x` stands on the stack above `i`. */
  ghost predicate Above(stack: seq<Frame>, i: int, x: Id) {
    exists j :: i < j < |stack| && 0 <= j && stack[j].id == x
  }

  /** `done` is what has been left for good, `seen` adds what is expanded on the stack. */
  ghost predicate Walking(graph: Graph, heads: seq<Id>, stack: seq<Frame>, seen: set<Id>, done: seq<Id>) {
    && (forall x <- done :: x in seen)
    && (forall i :: 0 <= i < |stack| && stack[i].expanded ==> stack[i].id in seen && stack[i].id !in done)
    && (forall i, j :: 0 <= i < j < |stack| && stack[i].expanded && stack[j].expanded ==> stack[i].id != stack[j].id)
    && (forall x <- seen :: x in done || exists i :: 0 <= i < |stack| && stack[i] == Frame(x, true))
    && (forall i :: 0 <= i < |stack| ==> Reachable(graph, heads, stack[i].id))
    && (forall x <- seen :: Reachable(graph, heads, x))
    && (forall x <- heads :: x in seen || OnStack(stack, x))
    && (forall x <- seen, p <- Parents(graph, x) :: p in seen || OnStack(stack, p))
    && NoRepeats(done)
  }

  /** Predecessors come first in `done`, and those of an expanded frame are done or above it. */
  ghost predicate Descends(graph: Graph, rank: Id -> nat, stack: seq<Frame>, done: seq<Id>) {
    && ParentsFirst(graph, done)
    && (forall i, j :: 0 <= i < j < |stack| && stack[i].expanded ==> rank(stack[j].id) < rank(stack[i].id))
    && (forall i, p :: 0 <= i < |stack| && stack[i].expanded && p in Parents(graph, stack[i].id) ==>
          p in done || Above(stack, i, p))
  }

  ghost predicate ParentsFirst(graph: Graph, s: seq<Id>) {
    forall i, p :: 0 <= i < |s| && p in Parents(graph, s[i]) ==> p in s[..i]
  }

  lemma WalkStart(graph: Graph, heads: seq<Id>, stack: seq<Frame>)
    requires |stack| == |heads| && forall x <- heads :: Frame(x, false) in stack
    requires forall f <- stack :: !f.expanded && f.id in heads
    ensures Walking(graph, heads, stack, {}, [])
    ensures forall rank :: Descends(graph, rank, stack, [])
  {
    hide Reachable;
    forall i | 0 <= i < |stack|
      ensures Reachable(graph, heads, stack[i].id)
    {
      assert stack[i] in stack;
      HeadReachable(graph, heads, stack[i].id);
    }
    forall x | x in heads
      ensures OnStack(stack, x)
    {
      var i :| 0 <= i < |stack| && stack[i] == Frame(x, false);
    }
  }

  lemma LeaveFrame(graph: Graph, heads: seq<Id>, rest: seq<Frame>, x: Id, seen: set<Id>, done: seq<Id>)
    requires Walking(graph, heads, rest + [Frame(x, true)], seen, done)
    ensures Walking(graph, heads, rest, seen, done + [x])
  {
    hide Reachable;
    var stack := rest + [Frame(x, true)];
    assert stack[|rest|] == Frame(x, true);
    forall i | 0 <= i < |rest|
      ensures stack[i] == rest[i]
    {
    }
    StackPart(rest, Frame(x, true));
  }

  lemma SkipFrame(graph: Graph, heads: seq<Id>, rest: seq<Frame>, x: Id, seen: set<Id>, done: seq<Id>)
    requires Walking(graph, heads, rest + [Frame(x, false)], seen, done) && x in seen
    ensures Walking(graph, heads, rest, seen, done)
  {
    hide Reachable;
    var stack := rest + [Frame(x, false)];
    forall i | 0 <= i < |rest|
      ensures stack[i] == rest[i]
    {
    }
    StackPart(rest, Frame(x, false));
  }

  /** What the stack held without its top. */
  lemma StackPart(rest: seq<Frame>, top: Frame)
    ensures forall y {:trigger OnStack(rest, y)} :: OnStack(rest + [top], y) <==> OnStack(rest, y) || y == top.id
    ensures forall y :: Frame(y, true) in rest + [top] <==> Frame(y, true) in rest || top == Frame(y, true)
  {
    var stack := rest + [top];
    assert stack[|rest|] == top;
    forall y | OnStack(rest, y)
      ensures OnStack(stack, y)
    {
      var i :| 0 <= i < |rest| && rest[i].id == y;
      assert stack[i].id == y;
    }
    forall y | OnStack(stack, y) && y != top.id
      ensures OnStack(rest, y)
    {
      var i :| 0 <= i < |stack| && stack[i].id == y;
      assert rest[i].id == y;
    }
  }

  /** `more` are the unexpanded frames of the predecessors of `x`, in some order. */
  ghost predicate FramesOf(graph: Graph, x: Id, more: seq<Frame>) {
    && (forall i :: 0 <= i < |more| ==> !more[i].expanded && more[i].id in Parents(graph, x))
    && (forall p <- Parents(graph, x) :: Frame(p, false) in more)
  }

  lemma ExpandFrame(graph: Graph, heads: seq<Id>, rest: seq<Frame>, x: Id, more: seq<Frame>, seen: set<Id>,
                    done: seq<Id>)
    requires Walking(graph, heads, rest + [Frame(x, false)], seen, done) && x !in seen && FramesOf(graph, x, more)
    ensures Walking(graph, heads, rest + [Frame(x, true)] + more, seen + {x}, done)
  {
    hide Reachable;
    var (stack, grown) := (rest + [Frame(x, false)], rest + [Frame(x, true)] + more);
    assert stack[|rest|] == Frame(x, false) && grown[|rest|] == Frame(x, true);
    assert forall i :: 0 <= i < |rest| ==> grown[i] == stack[i] == rest[i];
    assert forall i :: |rest| < i < |grown| ==> grown[i] == more[i - |rest| - 1];
    forall y | OnStack(stack, y)
      ensures OnStack(grown, y)
    {
      var i :| 0 <= i < |stack| && stack[i].id == y;
      assert grown[i].id == y;
    }
    forall p | p in Parents(graph, x)
      ensures OnStack(grown, p)
    {
      var i :| 0 <= i < |more| && more[i] == Frame(p, false);
      assert grown[|rest| + 1 + i].id == p;
    }
    forall i | 0 <= i < |grown|
      ensures Reachable(graph, heads, grown[i].id)
    {
      if i > |rest| {
        ParentReachable(graph, heads, x, grown[i].id);
      }
    }
    forall y | y in seen + {x} && y !in done
      ensures exists i :: 0 <= i < |grown| && grown[i] == Frame(y, true)
    {
      if y != x {
        var i :| 0 <= i < |stack| && stack[i] == Frame(y, true);
        assert grown[i] == Frame(y, true);
      }
    }
  }

  lemma LeaveDescends(graph: Graph, rank: Id -> nat, rest: seq<Frame>, x: Id, done: seq<Id>)
    requires Descends(graph, rank, rest + [Frame(x, true)], done)
    ensures Descends(graph, rank, rest, done + [x])
  {
    hide ParentsFirst;
    var stack := rest + [Frame(x, true)];
    assert stack[|rest|] == Frame(x, true);
    assert forall i :: 0 <= i < |rest| ==> stack[i] == rest[i];
    forall p | p in Parents(graph, x)
      ensures p in done
    {
      assert p in done || Above(stack, |rest|, p);
    }
    ParentsFirstStep(graph, done, x);
    forall i, p | 0 <= i < |rest| && rest[i].expanded && p in Parents(graph, rest[i].id)
      ensures p in done + [x] || Above(rest, i, p)
    {
      assert stack[i] == rest[i];
      if p !in done {
        AboveRest(rest, Frame(x, true), i, p);
      }
    }
  }

  lemma ParentsFirstStep(graph: Graph, done: seq<Id>, x: Id)
    requires ParentsFirst(graph, done) && forall p <- Parents(graph, x) :: p in done
    ensures ParentsFirst(graph, done + [x])
  {
    assert (done + [x])[..|done|] == done;
    forall i | 0 <= i < |done|
      ensures (done + [x])[..i] == done[..i]
    {
    }
  }

  lemma AboveRest(rest: seq<Frame>, top: Frame, i: int, p: Id)
    requires 0 <= i < |rest| && Above(rest + [top], i, p)
    ensures Above(rest, i, p) || p == top.id
  {
  }

  lemma SkipDescends(graph: Graph, heads: seq<Id>, rank: Id -> nat, rest: seq<Frame>, x: Id, seen: set<Id>,
                     done: seq<Id>)
    requires Walking(graph, heads, rest + [Frame(x, false)], seen, done) && x in seen
    requires Descends(graph, rank, rest + [Frame(x, false)], done)
    ensures Descends(graph, rank, rest, done)
  {
    hide Reachable, ParentsFirst, NoRepeats;
    var stack := rest + [Frame(x, false)];
    assert stack[|rest|] == Frame(x, false);
    forall i | 0 <= i < |stack|
      ensures stack[i] != Frame(x, true)
    {
      if i < |rest| && stack[i].expanded {
        assert rank(stack[|rest|].id) < rank(stack[i].id);
      }
    }
    forall i, p | 0 <= i < |rest| && rest[i].expanded && p in Parents(graph, rest[i].id)
      ensures p in done || Above(rest, i, p)
    {
      assert stack[i] == rest[i];
      if p !in done {
        AboveRest(rest, Frame(x, false), i, p);
      }
    }
    assert forall i :: 0 <= i < |rest| ==> stack[i] == rest[i];
  }

  lemma ExpandDescends(graph: Graph, rank: Id -> nat, rest: seq<Frame>, x: Id, more: seq<Frame>, done: seq<Id>)
    requires Descends(graph, rank, rest + [Frame(x, false)], done) && FramesOf(graph, x, more) && Ranked(graph, rank)
    ensures Descends(graph, rank, rest + [Frame(x, true)] + more, done)
  {
    hide ParentsFirst;
    var (stack, grown) := (rest + [Frame(x, false)], rest + [Frame(x, true)] + more);
    assert stack[|rest|] == Frame(x, false) && grown[|rest|] == Frame(x, true);
    assert forall i :: 0 <= i < |rest| ==> grown[i] == stack[i] == rest[i];
    forall j | |rest| < j < |grown|
      ensures !grown[j].expanded && rank(grown[j].id) < rank(x)
    {
      assert grown[j] == more[j - |rest| - 1];
    }
    forall i, p | 0 <= i < |grown| && grown[i].expanded && p in Parents(graph, grown[i].id)
      ensures p in done || Above(grown, i, p)
    {
      if i == |rest| {
        var k :| 0 <= k < |more| && more[k] == Frame(p, false);
        assert grown[|rest| + 1 + k].id == p;
      } else if p !in done {
        assert Above(stack, i, p);
        var j :| i < j < |stack| && 0 <= j && stack[j].id == p;
        assert grown[j].id == p;
      }
    }
  }

  // ---- results ----

  function Frames(ids: seq<Id>): (r: seq<Frame>)
    ensures |r| == |ids| && forall i :: 0 <= i < |ids| ==> r[i] == Frame(ids[i], false)
  {
    if ids == [] then [] else [Frame(ids[0], false)] + Frames(ids[1..])
  }

  /** The ids of `done` that are not excluded, in order. */
  ghost function Kept(done: seq<Id>, excluded: set<Id>): seq<Id> {
    if done == [] then []
    else
      var (init, last) := (done[..|done| - 1], done[|done| - 1]);
      Kept(init, excluded) + if last in excluded then [] else [last]
  }

  ghost predicate Complete(graph: Graph, heads: seq<Id>, done: seq<Id>) {
    forall x :: Reachable(graph, heads, x) <==> x in done
  }

  lemma WalkEnd(graph: Graph, heads: seq<Id>, seen: set<Id>, done: seq<Id>)
    requires Walking(graph, heads, [], seen, done)
    ensures Complete(graph, heads, done)
  {
    hide Reachable;
    assert forall x <- seen :: x in done;
    forall x | Reachable(graph, heads, x)
      ensures x in seen
    {
      SeenAll(graph, heads, seen, x);
    }
  }

  lemma SeenAll(graph: Graph, heads: seq<Id>, seen: set<Id>, x: Id)
    requires (forall x <- heads :: x in seen) && forall x <- seen, p <- Parents(graph, x) :: p in seen
    requires Reachable(graph, heads, x)
    ensures x in seen
  {
    var path :| Trail(graph, heads, path) && path[|path| - 1] == x;
    ReachableWithin(graph, heads, seen, path);
  }

  /** Every id a walk can meet. */
  ghost function Universe(graph: Graph, heads: seq<Id>): set<Id> {
    (set x <- heads) + (set x <- graph, p <- graph[x] :: p)
  }

  lemma InUniverse(graph: Graph, heads: seq<Id>, x: Id)
    requires Reachable(graph, heads, x)
    ensures x in Universe(graph, heads)
  {
    var path :| Trail(graph, heads, path) && path[|path| - 1] == x;
    if |path| > 1 {
      assert path[|path| - 1] in Parents(graph, path[|path| - 2]);
    }
  }

  lemma TopReachable(graph: Graph, heads: seq<Id>, stack: seq<Frame>, seen: set<Id>, done: seq<Id>)
    requires Walking(graph, heads, stack, seen, done) && stack != []
    ensures stack[|stack| - 1].id in Universe(graph, heads)
  {
    InUniverse(graph, heads, stack[|stack| - 1].id);
  }

  lemma KeptAppend(done: seq<Id>, x: Id, excluded: set<Id>)
    ensures Kept(done + [x], excluded) == Kept(done, excluded) + if x in excluded then [] else [x]
  {
  }

  lemma FramesFor(graph: Graph, x: Id)
    ensures FramesOf(graph, x, Frames(Parents(graph, x)))
    ensures FramesOf(graph, x, Frames(Reversed(Parents(graph, x))))
  {
    var ps := Parents(graph, x);
    var (straight, turned) := (Frames(ps), Frames(Reversed(ps)));
    forall p | p in ps
      ensures Frame(p, false) in straight && Frame(p, false) in turned
    {
      var i :| 0 <= i < |ps| && ps[i] == p;
      assert straight[i] == Frame(p, false) && turned[|ps| - 1 - i] == Frame(p, false);
    }
  }

  /** The walk's invariant: `Descends` holds of graphs without a cycle. */
  ghost predicate Midway(graph: Graph, heads: seq<Id>, rank: Id -> nat, stack: seq<Frame>, seen: set<Id>,
                         done: seq<Id>) {
    && Walking(graph, heads, stack, seen, done)
    && (Ranked(graph, rank) ==> Descends(graph, rank, stack, done))
  }

  lemma LeaveStep(graph: Graph, heads: seq<Id>, rank: Id -> nat, stack: seq<Frame>, seen: set<Id>, done: seq<Id>)
    requires Midway(graph, heads, rank, stack, seen, done) && stack != [] && stack[|stack| - 1].expanded
    ensures Midway(graph, heads, rank, stack[..|stack| - 1], seen, done + [stack[|stack| - 1].id])
  {
    hide Walking, Descends, Ranked;
    var (rest, x) := (stack[..|stack| - 1], stack[|stack| - 1].id);
    assert stack == rest + [Frame(x, true)];
    LeaveFrame(graph, heads, rest, x, seen, done);
    if Ranked(graph, rank) {
      LeaveDescends(graph, rank, rest, x, done);
    }
  }

  lemma SkipStep(graph: Graph, heads: seq<Id>, rank: Id -> nat, stack: seq<Frame>, seen: set<Id>, done: seq<Id>)
    requires Midway(graph, heads, rank, stack, seen, done)
    requires stack != [] && !stack[|stack| - 1].expanded && stack[|stack| - 1].id in seen
    ensures Midway(graph, heads, rank, stack[..|stack| - 1], seen, done)
  {
    hide Walking, Descends, Ranked;
    var (rest, x) := (stack[..|stack| - 1], stack[|stack| - 1].id);
    assert stack == rest + [Frame(x, false)];
    SkipFrame(graph, heads, rest, x, seen, done);
    if Ranked(graph, rank) {
      SkipDescends(graph, heads, rank, rest, x, seen, done);
    }
  }

  lemma ExpandStep(graph: Graph, heads: seq<Id>, rank: Id -> nat, stack: seq<Frame>, more: seq<Frame>, seen: set<Id>,
                   done: seq<Id>)
    requires Midway(graph, heads, rank, stack, seen, done)
    requires stack != [] && !stack[|stack| - 1].expanded && stack[|stack| - 1].id !in seen
    requires FramesOf(graph, stack[|stack| - 1].id, more)
    ensures
      var (rest, x) := (stack[..|stack| - 1], stack[|stack| - 1].id);
      && Midway(graph, heads, rank, rest + [Frame(x, true)] + more, seen + {x}, done)
      && x in Universe(graph, heads)
  {
    hide Walking, Descends, Ranked, FramesOf, Universe;
    var (rest, x) := (stack[..|stack| - 1], stack[|stack| - 1].id);
    assert stack == rest + [Frame(x, false)];
    TopReachable(graph, heads, stack, seen, done);
    ExpandFrame(graph, heads, rest, x, more, seen, done);
    if Ranked(graph, rank) {
      ExpandDescends(graph, rank, rest, x, more, done);
    }
  }

  // ---- the order of the walk ----

  /** What a walk has met and what it has left, in the order of leaving. */
  datatype Visit = Visit(seen: set<Id>, done: seq<Id>)

  /** The order siblings are visited in: as listed for oldest first, backwards for newest first. */
  ghost function InOrder(order: Order, ids: seq<Id>): seq<Id> {
    if order.OldestFirst? then ids else Reversed(ids)
  }

  /** The recursive walk: each id is left once, after its predecessors, and siblings one after the other. */
  ghost function DepthFirst(graph: Graph, order: Order, within: set<Id>, ids: seq<Id>, v: Visit): (r: Visit)
    ensures v.seen <= r.seen && v.done <= r.done
    decreases within - v.seen, |ids|
  {
    if ids == [] then v
    else if ids[0] in v.seen || ids[0] !in within then DepthFirst(graph, order, within, ids[1..], v)
    else
      var below :=
        DepthFirst(graph, order, within, InOrder(order, Parents(graph, ids[0])), v.(seen := v.seen + {ids[0]}));
      DepthFirst(graph, order, within, ids[1..], below.(done := below.done + [ids[0]]))
  }

  /** What the stack comes to, popped from its end. */
  ghost function Unwound(graph: Graph, order: Order, within: set<Id>, stack: seq<Frame>, v: Visit): (r: Visit)
    ensures v.done <= r.done
    decreases |stack|
  {
    if stack == [] then v
    else
      var (rest, top) := (stack[..|stack| - 1], stack[|stack| - 1]);
      if top.expanded then Unwound(graph, order, within, rest, v.(done := v.done + [top.id]))
      else Unwound(graph, order, within, rest, DepthFirst(graph, order, within, [top.id], v))
  }

  lemma OneByOne(graph: Graph, order: Order, within: set<Id>, ids: seq<Id>, v: Visit)
    requires ids != []
    ensures DepthFirst(graph, order, within, ids, v)
      == DepthFirst(graph, order, within, ids[1..], DepthFirst(graph, order, within, [ids[0]], v))
  {
    assert [ids[0]][1..] == [];
  }

  /** Frames pushed backwards are the ids walked forwards. */
  lemma {:induction false} UnwindFrames(graph: Graph, order: Order, within: set<Id>, rest: seq<Frame>, ids: seq<Id>,
                                        v: Visit)
    ensures Unwound(graph, order, within, rest + Frames(Reversed(ids)), v)
      == Unwound(graph, order, within, rest, DepthFirst(graph, order, within, ids, v))
    decreases |ids|
  {
    hide DepthFirst, Frames;
    var stack := rest + Frames(Reversed(ids));
    if ids == [] {
      assert stack == rest;
      WalksNothing(graph, order, within, v);
    } else {
      assert stack[|stack| - 1] == Frame(ids[0], false);
      assert stack[..|stack| - 1] == rest + Frames(Reversed(ids[1..]));
      OneByOne(graph, order, within, ids, v);
      UnwindFrames(graph, order, within, rest, ids[1..], DepthFirst(graph, order, within, [ids[0]], v));
    }
  }

  lemma WalksNothing(graph: Graph, order: Order, within: set<Id>, v: Visit)
    ensures DepthFirst(graph, order, within, [], v) == v
  {
  }

  lemma UnwindEmpty(graph: Graph, order: Order, within: set<Id>, v: Visit)
    ensures Unwound(graph, order, within, [], v) == v
  {
  }

  /** Either order pushes its siblings backwards. */
  lemma PushedBackwards(order: Order, ids: seq<Id>)
    ensures (if order.OldestFirst? then Reversed(ids) else ids) == Reversed(InOrder(order, ids))
  {
  }

  lemma UnwindLeave(graph: Graph, order: Order, within: set<Id>, stack: seq<Frame>, v: Visit)
    requires stack != [] && stack[|stack| - 1].expanded
    ensures Unwound(graph, order, within, stack, v)
      == Unwound(graph, order, within, stack[..|stack| - 1], v.(done := v.done + [stack[|stack| - 1].id]))
  {
  }

  lemma UnwindSkip(graph: Graph, order: Order, within: set<Id>, stack: seq<Frame>, v: Visit)
    requires stack != [] && !stack[|stack| - 1].expanded && stack[|stack| - 1].id in v.seen
    ensures Unwound(graph, order, within, stack, v) == Unwound(graph, order, within, stack[..|stack| - 1], v)
  {
    var ids := [stack[|stack| - 1].id];
    assert ids[1..] == [];
    WalksNothing(graph, order, within, v);
    assert DepthFirst(graph, order, within, ids, v) == v;
  }

  lemma UnwindExpand(graph: Graph, order: Order, within: set<Id>, rest: seq<Frame>, x: Id, v: Visit)
    requires x !in v.seen && x in within
    ensures Unwound(graph, order, within, rest + [Frame(x, false)], v)
      == Unwound(graph, order, within, rest + [Frame(x, true)] + Frames(Reversed(InOrder(order, Parents(graph, x)))),
           v.(seen := v.seen + {x}))
  {
    hide Frames, Parents;
    var (ids, w) := (InOrder(order, Parents(graph, x)), v.(seen := v.seen + {x}));
    var below := DepthFirst(graph, order, within, ids, w);
    UnwindFrames(graph, order, within, rest + [Frame(x, true)], ids, w);
    assert (rest + [Frame(x, true)])[..|rest|] == rest;
    assert (rest + [Frame(x, false)])[..|rest|] == rest;
    assert [x][1..] == [];
    WalksNothing(graph, order, within, below.(done := below.done + [x]));
  }

  /** The whole listing of a query: the recursive walk from its heads. */
  ghost function Listing(graph: Graph, query: Query): seq<Id> {
    DepthFirst(graph, query.order, Universe(graph, query.heads), InOrder(query.order, query.heads), Visit({}, [])).done
  }

  /** What the walk has listed: reachable, once each, predecessors first when there is no cycle. */
  ghost predicate Listed(graph: Graph, heads: seq<Id>, rank: Id -> nat, done: seq<Id>) {
    && NoRepeats(done)
    && (forall x <- done :: Reachable(graph, heads, x))
    && (Ranked(graph, rank) ==> ParentsFirst(graph, done))
  }

  /** The walk's invariant, and that what is left of it completes the listing. */
  ghost predicate OnCourse(graph: Graph, query: Query, rank: Id -> nat, stack: seq<Frame>, seen: set<Id>,
                           done: seq<Id>) {
    && Midway(graph, query.heads, rank, stack, seen, done)
    && Unwound(graph, query.order, Universe(graph, query.heads), stack, Visit(seen, done)).done == Listing(graph, query)
  }

  lemma CourseStart(graph: Graph, query: Query, rank: Id -> nat, stack: seq<Frame>)
    requires stack == Frames(if query.order.OldestFirst? then Reversed(query.heads) else query.heads)
    ensures OnCourse(graph, query, rank, stack, {}, [])
  {
    hide Midway, Frames, Unwound, DepthFirst, Universe;
    var (within, ids) := (Universe(graph, query.heads), InOrder(query.order, query.heads));
    StackStart(graph, query.heads, stack, rank);
    PushedBackwards(query.order, query.heads);
    UnwindFrames(graph, query.order, within, [], ids, Visit({}, []));
    assert [] + stack == stack;
    UnwindEmpty(graph, query.order, within, DepthFirst(graph, query.order, within, ids, Visit({}, [])));
  }

  lemma CourseLeave(graph: Graph, query: Query, rank: Id -> nat, stack: seq<Frame>, seen: set<Id>, done: seq<Id>)
    requires OnCourse(graph, query, rank, stack, seen, done) && stack != [] && stack[|stack| - 1].expanded
    ensures OnCourse(graph, query, rank, stack[..|stack| - 1], seen, done + [stack[|stack| - 1].id])
  {
    hide Midway, Unwound, Universe, Listing;
    LeaveStep(graph, query.heads, rank, stack, seen, done);
    UnwindLeave(graph, query.order, Universe(graph, query.heads), stack, Visit(seen, done));
  }

  lemma CourseSkip(graph: Graph, query: Query, rank: Id -> nat, stack: seq<Frame>, seen: set<Id>, done: seq<Id>)
    requires OnCourse(graph, query, rank, stack, seen, done)
    requires stack != [] && !stack[|stack| - 1].expanded && stack[|stack| - 1].id in seen
    ensures OnCourse(graph, query, rank, stack[..|stack| - 1], seen, done)
  {
    hide Midway, Unwound, Universe, Listing;
    SkipStep(graph, query.heads, rank, stack, seen, done);
    UnwindSkip(graph, query.order, Universe(graph, query.heads), stack, Visit(seen, done));
  }

  lemma CourseExpand(graph: Graph, query: Query, rank: Id -> nat, stack: seq<Frame>, seen: set<Id>, done: seq<Id>,
                     more: seq<Frame>)
    requires OnCourse(graph, query, rank, stack, seen, done)
    requires stack != [] && !stack[|stack| - 1].expanded && stack[|stack| - 1].id !in seen
    requires
      var ps := Parents(graph, stack[|stack| - 1].id);
      more == Frames(if query.order.OldestFirst? then Reversed(ps) else ps)
    ensures
      var (rest, x) := (stack[..|stack| - 1], stack[|stack| - 1].id);
      && OnCourse(graph, query, rank, rest + [Frame(x, true)] + more, seen + {x}, done)
      && x in Universe(graph, query.heads)
  {
    hide Midway, Unwound, Universe, Listing, FramesOf, Frames, Parents, InOrder, Reversed;
    var (rest, x) := (stack[..|stack| - 1], stack[|stack| - 1].id);
    PushedFrames(graph, query.order, x, more);
    ExpandStep(graph, query.heads, rank, stack, more, seen, done);
    ExpandUnwound(graph, query.order, Universe(graph, query.heads), stack, more, Visit(seen, done));
  }

  lemma PushedFrames(graph: Graph, order: Order, x: Id, more: seq<Frame>)
    requires
      var ps := Parents(graph, x);
      more == Frames(if order.OldestFirst? then Reversed(ps) else ps)
    ensures FramesOf(graph, x, more) && more == Frames(Reversed(InOrder(order, Parents(graph, x))))
  {
    hide FramesOf, Parents;
    FramesFor(graph, x);
    PushedBackwards(order, Parents(graph, x));
  }

  lemma ExpandUnwound(graph: Graph, order: Order, within: set<Id>, stack: seq<Frame>, more: seq<Frame>, v: Visit)
    requires stack != [] && !stack[|stack| - 1].expanded
    requires
      var x := stack[|stack| - 1].id;
      x !in v.seen && x in within && more == Frames(Reversed(InOrder(order, Parents(graph, x))))
    ensures
      var (rest, x) := (stack[..|stack| - 1], stack[|stack| - 1].id);
      Unwound(graph, order, within, stack, v)
        == Unwound(graph, order, within, rest + [Frame(x, true)] + more, v.(seen := v.seen + {x}))
  {
    hide Unwound, Frames, Parents, InOrder, Reversed;
    var (rest, x) := (stack[..|stack| - 1], stack[|stack| - 1].id);
    assert stack == rest + [Frame(x, false)];
    UnwindExpand(graph, order, within, rest, x, v);
  }

  lemma CourseMeans(graph: Graph, query: Query, rank: Id -> nat, stack: seq<Frame>, seen: set<Id>, done: seq<Id>)
    requires OnCourse(graph, query, rank, stack, seen, done)
    ensures Listed(graph, query.heads, rank, done) && done <= Listing(graph, query)
    ensures stack == [] ==> Complete(graph, query.heads, done) && done == Listing(graph, query)
  {
    hide Midway, Universe, Listing, Complete, Listed, DepthFirst;
    WalkMeans(graph, query.heads, stack, seen, done, rank);
  }

  /** The walk from the heads lists as the recursive one, stopped early only by an oldest-first limit. */
  method Walk(graph: Graph, query: Query, excluded: set<Id>, ghost rank: Id -> nat)
    returns (out: seq<Id>, ghost done: seq<Id>, stopped: bool)
    requires query.limit != Some(0)
    ensures Listed(graph, query.heads, rank, done) && out == Kept(done, excluded)
    ensures done <= Listing(graph, query) && (!stopped ==> done == Listing(graph, query))
    ensures stopped ==> query.order.OldestFirst? && query.limit == Some(|out|)
    ensures !stopped ==> Complete(graph, query.heads, done)
    ensures query.order.OldestFirst? && query.limit.Some? ==> |out| <= query.limit.value
  {
    hide OnCourse, Listed, Kept, Complete, Frames, Reversed, Universe, Parents, Listing;
    out, done := [], [];
    NothingDone(graph, excluded);
    var seen: set<Id> := {};
    var stack := Frames(if query.order.OldestFirst? then Reversed(query.heads) else query.heads);
    CourseStart(graph, query, rank, stack);
    while stack != []
      invariant OnCourse(graph, query, rank, stack, seen, done)
      invariant out == Kept(done, excluded)
      invariant query.order.OldestFirst? && query.limit.Some? ==> |out| < query.limit.value
      decreases Universe(graph, query.heads) - seen, |stack|
    {
      var (top, rest) := (stack[|stack| - 1], stack[..|stack| - 1]);
      var x := top.id;
      if top.expanded {
        CourseLeave(graph, query, rank, stack, seen, done);
        KeptAppend(done, x, excluded);
        stack, done := rest, done + [x];
        if x !in excluded {
          out := out + [x];
          if query.order.OldestFirst? && query.limit.Some? && |out| >= query.limit.value {
            CourseMeans(graph, query, rank, stack, seen, done);
            return out, done, true;
          }
        }
      } else if x in seen {
        CourseSkip(graph, query, rank, stack, seen, done);
        stack := rest;
      } else {
        var ps := if x in graph then graph[x] else [];
        assert ps == Parents(graph, x) by { ParentsOf(graph, x); }
        var more := Frames(if query.order.OldestFirst? then Reversed(ps) else ps);
        CourseExpand(graph, query, rank, stack, seen, done, more);
        seen, stack := seen + {x}, rest + [Frame(x, true)] + more;
      }
    }
    CourseMeans(graph, query, rank, stack, seen, done);
    stopped := false;
  }

  /** The part of the listing that is not excluded, turned for newest first and cut at the limit. */
  ghost function Asked(graph: Graph, query: Query): seq<Id> {
    var kept := Kept(Listing(graph, query), if query.includeHeads then {} else set x <- query.heads);
    var all := if query.order.NewestFirst? then Reversed(kept) else kept;
    if query.limit.Some? && query.limit.value < |all| then all[..query.limit.value] else all
  }

  /**
   The ids reachable from the heads. `done` lists what was left, predecessors first when there is
   no cycle; the answer is what of it is not excluded, cut at the limit and turned for newest first.
   */
  method TraverseDag(graph: Graph, query: Query) returns (out: seq<Id>, ghost done: seq<Id>)
    ensures NoRepeats(done) && forall x <- done :: Reachable(graph, query.heads, x)
    ensures Acyclic(graph) ==> ParentsFirst(graph, done)
    ensures query.limit != Some(0) ==> Answers(graph, query, done, out)
    ensures out == Asked(graph, query)
  {
    hide Kept, Complete, Reversed, Reachable, Acyclic, Ranked, ParentsFirst, Listing;
    NothingFirst(graph);
    ghost var rank := RankOf(graph);
    if Acyclic(graph) {
      AcyclicIsRanked(graph);
    }
    if query.limit == Some(0) {
      return [], [];
    }
    var excluded := if query.includeHeads then {} else set x <- query.heads;
    var stopped;
    out, done, stopped := Walk(graph, query, excluded, rank);
    KeptPrefix(done, Listing(graph, query), excluded);
    if !stopped {
      out := Arranged(query, out);
    }
  }

  lemma {:induction false} KeptPrefix(some: seq<Id>, all: seq<Id>, excluded: set<Id>)
    requires some <= all
    ensures Kept(some, excluded) <= Kept(all, excluded)
    decreases |all|
  {
    if |some| < |all| {
      KeptPrefix(some, all[..|all| - 1], excluded);
    } else {
      assert some == all;
    }
  }

  /** Turns the kept ids round for newest first and cuts them at the limit. */
  function Arranged(query: Query, kept: seq<Id>): seq<Id> {
    var turned := if query.order.NewestFirst? then Reversed(kept) else kept;
    if query.limit.Some? && query.limit.value < |turned| then turned[..query.limit.value] else turned
  }

  /** `out` is the part of `done` the query asks for. */
  ghost predicate Answers(graph: Graph, query: Query, done: seq<Id>, out: seq<Id>) {
    var kept := Kept(done, if query.includeHeads then {} else set x <- query.heads);
    match query.order
    case OldestFirst =>
      out == kept && (Complete(graph, query.heads, done) || query.limit == Some(|out|))
      && (query.limit.Some? ==> |out| <= query.limit.value)
    case NewestFirst =>
      && Complete(graph, query.heads, done)
      && out == if query.limit.Some? && query.limit.value < |kept|
                then Reversed(kept)[..query.limit.value] else Reversed(kept)
  }

  lemma NothingFirst(graph: Graph)
    ensures ParentsFirst(graph, [])
  {
  }

  lemma NothingDone(graph: Graph, excluded: set<Id>)
    ensures Kept([], excluded) == []
  {
  }

  lemma WalkMeans(graph: Graph, heads: seq<Id>, stack: seq<Frame>, seen: set<Id>, done: seq<Id>, rank: Id -> nat)
    requires Midway(graph, heads, rank, stack, seen, done)
    ensures Listed(graph, heads, rank, done)
    ensures stack == [] ==> Complete(graph, heads, done)
  {
    hide Reachable, Ranked, NoRepeats, ParentsFirst, Complete;
    if stack == [] {
      WalkEnd(graph, heads, seen, done);
    }
  }

  lemma StackStart(graph: Graph, heads: seq<Id>, stack: seq<Frame>, rank: Id -> nat)
    requires stack == Frames(heads) || stack == Frames(Reversed(heads))
    ensures Midway(graph, heads, rank, stack, {}, [])
  {
    var turned := Reversed(heads);
    forall x | x in heads
      ensures Frame(x, false) in stack
    {
      var i :| 0 <= i < |heads| && heads[i] == x;
      assert turned[|heads| - 1 - i] == x;
      assert stack[i] == Frame(x, false) || stack[|heads| - 1 - i] == Frame(x, false);
    }
    WalkStart(graph, heads, stack);
  }

  /** Unlimited, oldest first, heads included: exactly what is reachable, once, predecessors first. */
  lemma UnlimitedIsReachable(graph: Graph, query: Query, done: seq<Id>, out: seq<Id>)
    requires query.order.OldestFirst? && query.limit.None? && query.includeHeads && Answers(graph, query, done, out)
    ensures out == done && Complete(graph, query.heads, out)
  {
    KeptAll(done);
  }

  lemma {:induction false} KeptAll(done: seq<Id>)
    ensures Kept(done, {}) == done
  {
    if done != [] {
      KeptAll(done[..|done| - 1]);
      assert done == done[..|done| - 1] + [done[|done| - 1]];
    }
  }
}
