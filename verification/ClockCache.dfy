/**
 The nodes a clock cache holds alive: reference counts over shared subtrees, kept by
 address, and a byte total.
 */
module ClockCache {
  import opened Prelude

  /** A shared node: where it lives, what it costs, how many entries it has and its children. */
  datatype Arc = Arc(at: nat, size: nat, len: nat, children: seq<Arc>)

  datatype CachedNode = CachedNode(references: nat, root: bool)

  const CACHE_BYTES: nat := 64 * 1024 * 1024
  const ENTRY_BYTES: nat := 512

  // ---- sums over the held nodes ----

  ghost function Bytes(held: set<Arc>): nat {
    if held == {} then 0 else
      var x :| x in held;
      x.size + Bytes(held - {x})
  }

  /** Every edge that leaves a held node, with multiplicity. */
  ghost function Edges(held: set<Arc>): multiset<Arc> {
    if held == {} then multiset{} else
      var x :| x in held;
      multiset(x.children) + Edges(held - {x})
  }

  lemma {:induction false} RemoveOne(held: set<Arc>, x: Arc)
    requires x in held
    ensures Bytes(held) == x.size + Bytes(held - {x})
    ensures Edges(held) == multiset(x.children) + Edges(held - {x})
    decreases held
  {
    var y :| y in held && Bytes(held) == y.size + Bytes(held - {y});
    var z :| z in held && Edges(held) == multiset(z.children) + Edges(held - {z});
    BytesRemove(held, y, x);
    EdgesRemove(held, z, x);
  }

  lemma {:induction false} BytesRemove(held: set<Arc>, y: Arc, x: Arc)
    requires x in held && y in held && Bytes(held) == y.size + Bytes(held - {y})
    ensures Bytes(held) == x.size + Bytes(held - {x})
    decreases held, 0
  {
    if x != y {
      RemoveOne(held - {y}, x);
      RemoveOne(held - {x}, y);
      assert held - {y} - {x} == held - {x} - {y};
    }
  }

  lemma {:induction false} EdgesRemove(held: set<Arc>, y: Arc, x: Arc)
    requires x in held && y in held && Edges(held) == multiset(y.children) + Edges(held - {y})
    ensures Edges(held) == multiset(x.children) + Edges(held - {x})
    decreases held, 0
  {
    if x != y {
      RemoveOne(held - {y}, x);
      RemoveOne(held - {x}, y);
      assert held - {y} - {x} == held - {x} - {y};
    }
  }

  lemma AddOne(held: set<Arc>, x: Arc)
    requires x !in held
    ensures Bytes(held + {x}) == x.size + Bytes(held)
    ensures Edges(held + {x}) == multiset(x.children) + Edges(held)
  {
    RemoveOne(held + {x}, x);
    assert held + {x} - {x} == held;
  }

  lemma {:induction false} EdgeFrom(held: set<Arc>, x: Arc)
    ensures x in Edges(held) <==> exists p :: p in held && x in p.children
    decreases held
  {
    if held != {} {
      var y :| y in held && Edges(held) == multiset(y.children) + Edges(held - {y});
      EdgeFrom(held - {y}, x);
    }
  }

  // ---- reachability ----

  ghost function Reach(roots: seq<Arc>): set<Arc> {
    if roots == [] then {} else Reach(roots[..|roots| - 1]) + ReachOne(roots[|roots| - 1])
  }

  ghost function ReachOne(x: Arc): set<Arc> {
    {x} + Reach(x.children)
  }

  lemma {:induction false} ReachFrom(roots: seq<Arc>, y: Arc)
    ensures y in Reach(roots) <==> exists i :: 0 <= i < |roots| && y in ReachOne(roots[i])
  {
    if roots != [] {
      var (init, last) := (roots[..|roots| - 1], roots[|roots| - 1]);
      ReachFrom(init, y);
      if y in ReachOne(last) {
        assert roots[|roots| - 1] == last;
      } else if y in Reach(init) {
        var i :| 0 <= i < |init| && y in ReachOne(init[i]);
        assert roots[i] == init[i];
      } else if i :| 0 <= i < |roots| && y in ReachOne(roots[i]) {
        assert init[i] == roots[i];
      }
    }
  }

  /** What is reached has its children reached. */
  lemma {:induction false} ReachChild(roots: seq<Arc>, p: Arc, x: Arc)
    requires p in Reach(roots) && x in p.children
    ensures x in Reach(roots)
    decreases roots
  {
    ReachFrom(roots, p);
    var i :| 0 <= i < |roots| && p in ReachOne(roots[i]);
    var j :| 0 <= j < |p.children| && p.children[j] == x;
    if p == roots[i] {
      ReachFrom(p.children, x);
    } else {
      ReachChild(roots[i].children, p, x);
    }
    ReachFrom(roots, x);
  }

  /** A set holding the roots and the children of its members holds all they reach. */
  lemma {:induction false} ReachWithin(roots: seq<Arc>, held: set<Arc>)
    requires forall x <- roots :: x in held
    requires forall p <- held, x <- p.children :: x in held
    ensures Reach(roots) <= held
    decreases roots
  {
    forall y | y in Reach(roots)
      ensures y in held
    {
      ReachFrom(roots, y);
      var i :| 0 <= i < |roots| && y in ReachOne(roots[i]);
      if y != roots[i] {
        ReachWithin(roots[i].children, held);
      }
    }
  }

  ghost function Height(x: Arc): nat {
    1 + HeightAll(x.children)
  }

  ghost function HeightAll(xs: seq<Arc>): nat {
    if xs == [] then 0 else Max(HeightAll(xs[..|xs| - 1]), Height(xs[|xs| - 1]))
  }

  lemma {:induction false} HeightOf(xs: seq<Arc>, x: Arc)
    requires x in xs
    ensures Height(x) <= HeightAll(xs)
  {
    if x != xs[|xs| - 1] {
      HeightOf(xs[..|xs| - 1], x);
    }
  }

  ghost function Tallest(held: set<Arc>): nat {
    if held == {} then 0 else
      var x :| x in held;
      var rest := Tallest(held - {x});
      if Height(x) > rest then Height(x) else rest
  }

  lemma {:induction false} TallestOf(held: set<Arc>, x: Arc)
    requires x in held
    ensures Height(x) <= Tallest(held)
    decreases held
  {
    hide Height;
    var y :| y in held && Tallest(held) >= Height(y) && Tallest(held) >= Tallest(held - {y});
    if x != y {
      TallestOf(held - {y}, x);
    }
  }

  // ---- the invariant ----

  type Retained = map<nat, CachedNode>

  /** Live nodes do not share an address. */
  ghost predicate Distinct(live: set<Arc>) {
    forall x <- live, y <- live :: x.at == y.at ==> x == y
  }

  /** The retained addresses are those of `held`, each counted at least once. */
  ghost predicate Indexed(retained: Retained, held: set<Arc>) {
    && (forall x <- held :: x.at in retained && retained[x.at].references > 0)
    && (forall at <- retained :: exists x :: x in held && x.at == at)
  }

  ghost function References(retained: Retained, held: set<Arc>, x: Arc): nat {
    if x in held && x.at in retained then retained[x.at].references else 0
  }

  /** Counts made plus counts still pending are the edges from held nodes plus what else is owed. */
  ghost predicate Balanced(retained: Retained, held: set<Arc>, pending: multiset<Arc>, owed: multiset<Arc>) {
    forall x :: References(retained, held, x) + pending[x] == Edges(held)[x] + owed[x]
  }

  /** Balanced books with nothing pending retain exactly what the owed roots reach. */
  lemma BalancedIsReach(retained: Retained, held: set<Arc>, roots: seq<Arc>)
    requires Indexed(retained, held) && Balanced(retained, held, multiset{}, multiset(roots))
    ensures held == Reach(roots)
  {
    forall p, x | p in held && x in p.children
      ensures x in held
    {
      EdgeFrom(held, x);
      assert Edges(held)[x] > 0;
    }
    forall x | x in roots
      ensures x in held
    {
      assert multiset(roots)[x] > 0;
    }
    ReachWithin(roots, held);
    forall x | x in held
      ensures x in Reach(roots)
    {
      HeldIsReached(retained, held, roots, x);
    }
  }

  lemma {:induction false} HeldIsReached(retained: Retained, held: set<Arc>, roots: seq<Arc>, x: Arc)
    requires Indexed(retained, held) && Balanced(retained, held, multiset{}, multiset(roots)) && x in held
    ensures x in Reach(roots)
    decreases Tallest(held) - Height(x)
  {
    assert References(retained, held, x) > 0;
    if x in roots {
      var i :| 0 <= i < |roots| && roots[i] == x;
      ReachFrom(roots, x);
    } else {
      assert multiset(roots)[x] == 0;
      EdgeFrom(held, x);
      var p :| p in held && x in p.children;
      HeightOf(p.children, x);
      TallestOf(held, p);
      HeldIsReached(retained, held, roots, p);
      ReachChild(roots, p, x);
    }
  }

  // ---- one step of counting up or down ----

  lemma CountAgain(retained: Retained, held: set<Arc>, rest: seq<Arc>, x: Arc, owed: multiset<Arc>)
    requires Distinct(held) && Indexed(retained, held) && x in held
    requires Balanced(retained, held, multiset(rest + [x]), owed)
    ensures
      var more := retained[x.at := retained[x.at].(references := retained[x.at].references + 1)];
      Indexed(more, held) && Balanced(more, held, multiset(rest), owed)
  {
    hide Edges;
    var more := retained[x.at := retained[x.at].(references := retained[x.at].references + 1)];
    forall y: Arc
      ensures References(more, held, y) + multiset(rest)[y] == Edges(held)[y] + owed[y]
    {
      assert References(retained, held, y) + multiset(rest + [x])[y] == Edges(held)[y] + owed[y];
    }
  }

  lemma CountNew(retained: Retained, held: set<Arc>, rest: seq<Arc>, x: Arc, owed: multiset<Arc>)
    requires Distinct(held + {x}) && Indexed(retained, held) && x !in held
    requires Balanced(retained, held, multiset(rest + [x]), owed)
    ensures
      var more := retained[x.at := CachedNode(1, false)];
      && Indexed(more, held + {x})
      && Balanced(more, held + {x}, multiset(rest + x.children), owed)
      && Bytes(held + {x}) == Bytes(held) + x.size
  {
    hide Edges, Bytes, References, Distinct, Indexed;
    AddOne(held, x);
    var (more, grown) := (retained[x.at := CachedNode(1, false)], held + {x});
    IndexNew(retained, held, x);
    forall y: Arc
      ensures References(more, grown, y) + multiset(rest + x.children)[y] == Edges(grown)[y] + owed[y]
    {
      assert References(retained, held, y) + multiset(rest + [x])[y] == Edges(held)[y] + owed[y];
    }
  }

  lemma IndexNew(retained: Retained, held: set<Arc>, x: Arc)
    requires Distinct(held + {x}) && Indexed(retained, held) && x !in held
    ensures Indexed(retained[x.at := CachedNode(1, false)], held + {x})
    ensures forall y :: (References(retained[x.at := CachedNode(1, false)], held + {x}, y)
      == References(retained, held, y) + if y == x then 1 else 0)
  {
    var (more, grown) := (retained[x.at := CachedNode(1, false)], held + {x});
    forall at <- more
      ensures exists y :: y in grown && y.at == at
    {
      if at == x.at {
        assert x in grown;
      } else {
        var y :| y in held && y.at == at;
        assert y in grown;
      }
    }
  }

  lemma OwedIsHeld(retained: Retained, held: set<Arc>, owed: multiset<Arc>, x: Arc)
    requires Indexed(retained, held) && Balanced(retained, held, multiset{}, owed) && x in owed
    ensures x in held
  {
  }

  lemma CountDown(retained: Retained, held: set<Arc>, latest: multiset<Arc>, rest: seq<Arc>, x: Arc)
    requires Distinct(held) && Indexed(retained, held) && x in held && retained[x.at].references > 1
    requires Balanced(retained, held, multiset{}, latest + multiset(rest + [x]))
    ensures
      var less := retained[x.at := retained[x.at].(references := retained[x.at].references - 1)];
      Indexed(less, held) && Balanced(less, held, multiset{}, latest + multiset(rest))
  {
    hide Edges;
    var less := retained[x.at := retained[x.at].(references := retained[x.at].references - 1)];
    forall y: Arc
      ensures References(less, held, y) + multiset{}[y] == Edges(held)[y] + (latest + multiset(rest))[y]
    {
      assert References(retained, held, y) + multiset{}[y] == Edges(held)[y] + (latest + multiset(rest + [x]))[y];
    }
  }

  lemma CountOut(retained: Retained, held: set<Arc>, latest: multiset<Arc>, rest: seq<Arc>, x: Arc)
    requires Distinct(held) && Indexed(retained, held) && x in held && retained[x.at].references == 1
    requires Balanced(retained, held, multiset{}, latest + multiset(rest + [x]))
    ensures Indexed(retained - {x.at}, held - {x})
    ensures Balanced(retained - {x.at}, held - {x}, multiset{}, latest + multiset(rest + x.children))
    ensures Bytes(held - {x}) == Bytes(held) - x.size
  {
    hide Edges, Bytes, References, Distinct, Indexed;
    RemoveOne(held, x);
    IndexOut(retained, held, x);
    forall y: Arc
      ensures References(retained - {x.at}, held - {x}, y) + multiset{}[y]
           == Edges(held - {x})[y] + (latest + multiset(rest + x.children))[y]
    {
      assert References(retained, held, y) + multiset{}[y] == Edges(held)[y] + (latest + multiset(rest + [x]))[y];
    }
  }

  lemma IndexOut(retained: Retained, held: set<Arc>, x: Arc)
    requires Distinct(held) && Indexed(retained, held) && x in held && retained[x.at].references == 1
    ensures Indexed(retained - {x.at}, held - {x})
    ensures forall y :: (References(retained - {x.at}, held - {x}, y)
      == References(retained, held, y) - if y == x then 1 else 0)
  {
    var (less, left) := (retained - {x.at}, held - {x});
    forall at <- less
      ensures exists y :: y in left && y.at == at
    {
      var y :| y in held && y.at == at;
      assert y in left;
    }
  }

  /** Which retained nodes stand as roots. */
  ghost predicate Flagged(retained: Retained, held: set<Arc>, latest: seq<Arc>) {
    forall x <- held :: x.at in retained ==> (retained[x.at].root <==> x in latest)
  }

  lemma IndexedAt(retained: Retained, held: set<Arc>, x: Arc)
    requires Indexed(retained, held) && x in held
    ensures x.at in retained && retained[x.at].references > 0
  {
  }

  /** Before a new root is counted: it is live beside what is held, and it is owed. */
  lemma LiveStart(retained: Retained, held: set<Arc>, latest: seq<Arc>, root: Arc)
    requires Indexed(retained, held) && Balanced(retained, held, multiset{}, multiset(latest))
    ensures held <= Reach(latest + [root]) && root in Reach(latest + [root])
    ensures Balanced(retained, held, multiset([root]), multiset(latest + [root]))
    ensures forall x <- latest :: x in held
  {
    hide Edges, Indexed, Balanced;
    BalancedIsReach(retained, held, latest);
    assert (latest + [root])[..|latest|] == latest;
    forall x | x in latest
      ensures x in held
    {
      var i :| 0 <= i < |latest| && latest[i] == x;
      ReachFrom(latest, x);
    }
    OweRoot(retained, held, latest, root);
  }

  lemma OweRoot(retained: Retained, held: set<Arc>, latest: seq<Arc>, root: Arc)
    requires Balanced(retained, held, multiset{}, multiset(latest))
    ensures Balanced(retained, held, multiset([root]), multiset(latest + [root]))
  {
  }

  lemma LiveAt(retained: Retained, held: set<Arc>, live: set<Arc>, x: Arc)
    requires Distinct(live) && held <= live && x in live && Indexed(retained, held)
    ensures x.at in retained <==> x in held
    ensures Distinct(held + {x}) && Distinct(held)
  {
  }

  lemma LiveChildren(roots: seq<Arc>, x: Arc)
    requires x in Reach(roots)
    ensures forall y <- x.children :: y in Reach(roots)
  {
    forall y | y in x.children
      ensures y in Reach(roots)
    {
      ReachChild(roots, x, y);
    }
  }

  lemma SetFlag(retained: Retained, held: set<Arc>, x: Arc, flag: bool, owed: multiset<Arc>)
    requires Distinct(held) && Indexed(retained, held) && x in held
    requires Balanced(retained, held, multiset{}, owed)
    ensures
      var flagged := retained[x.at := retained[x.at].(root := flag)];
      Indexed(flagged, held) && Balanced(flagged, held, multiset{}, owed)
  {
    hide Edges;
    var flagged := retained[x.at := retained[x.at].(root := flag)];
    forall y: Arc
      ensures References(flagged, held, y) + multiset{}[y] == Edges(held)[y] + owed[y]
    {
      assert References(retained, held, y) + multiset{}[y] == Edges(held)[y] + owed[y];
    }
  }

  lemma RootFlag(retained: Retained, held: set<Arc>, latest: seq<Arc>, root: Arc)
    requires Indexed(retained, held) && Balanced(retained, held, multiset{}, multiset(latest))
    requires Flagged(retained, held, latest) && Distinct(Reach(latest + [root]))
    ensures root.at in retained && retained[root.at].root <==> root in latest
  {
    hide Edges, Balanced;
    LiveStart(retained, held, latest, root);
    LiveAt(retained, held, Reach(latest + [root]), root);
  }

  lemma SplitRoots(latest: seq<Arc>, retained: Retained, held: set<Arc>)
    requires latest != [] && NoRepeats(latest) && Flagged(retained, held, latest)
    ensures multiset(latest) == multiset(latest[1..]) + multiset{latest[0]}
    ensures Flagged(retained, held, latest[1..] + [latest[0]])
    ensures NoRepeats(latest[1..]) && latest[0] !in latest[1..]
  {
    assert latest == [latest[0]] + latest[1..];
    assert forall x :: x in latest <==> x in latest[1..] + [latest[0]];
  }

  /** With the oldest `k` roots gone the cache still costs more than `limit`; `tables` is what its tables then take. */
  ghost predicate Over(roots: seq<Arc>, limit: nat, tables: nat -> nat, k: nat) {
    k < |roots| && Bytes(Reach(roots[k..])) + tables(k) > limit
  }

  /** Just as many of the oldest roots are gone as it takes to fit, all of them if nothing does. */
  ghost predicate Trimmed(latest: seq<Arc>, roots: seq<Arc>, limit: nat, tables: nat -> nat) {
    var k := |roots| - |latest|;
    && 0 <= k && latest == roots[k..]
    && (forall i :: 0 <= i < k ==> Over(roots, limit, tables, i))
    && !Over(roots, limit, tables, k)
  }

  /** The oldest `k` roots are gone, each while the cache cost too much. */
  ghost predicate Trimming(latest: seq<Arc>, roots: seq<Arc>, limit: nat, tables: nat -> nat, k: nat) {
    k <= |roots| && latest == roots[k..] && forall i :: 0 <= i < k ==> Over(roots, limit, tables, i)
  }

  lemma TrimStart(roots: seq<Arc>, limit: nat, tables: nat -> nat)
    ensures Trimming(roots, roots, limit, tables, 0)
  {
  }

  lemma TrimStep(latest: seq<Arc>, roots: seq<Arc>, limit: nat, tables: nat -> nat, k: nat)
    requires Trimming(latest, roots, limit, tables, k) && latest != [] && Bytes(Reach(latest)) + tables(k) > limit
    ensures Trimming(latest[1..], roots, limit, tables, k + 1)
  {
    hide Bytes, Reach;
    assert Over(roots, limit, tables, k);
  }

  lemma TrimEnd(latest: seq<Arc>, roots: seq<Arc>, limit: nat, tables: nat -> nat, k: nat)
    requires Trimming(latest, roots, limit, tables, k) && (latest == [] || Bytes(Reach(latest)) + tables(k) <= limit)
    ensures Trimmed(latest, roots, limit, tables)
  {
    hide Bytes, Reach;
  }

  class Cache {
    var latest: seq<Arc>
    var retained: Retained
    var bytes: nat
    ghost var held: set<Arc>

    ghost predicate Valid()
      reads this
    {
      && Distinct(held) && Indexed(retained, held)
      && Balanced(retained, held, multiset{}, multiset(latest))
      && Flagged(retained, held, latest) && NoRepeats(latest)
      && bytes == Bytes(held)
    }

    constructor ()
      ensures Valid() && latest == []
    {
      latest, retained, bytes, held := [], map[], 0, {};
    }

    /** Afterwards the counts balance the edges from all that the roots and the new one reach. */
    method Remember(root: Arc)
      requires Valid() && Distinct(Reach(latest + [root])) && root !in latest
      modifies `retained, `bytes, `held
      ensures Distinct(held) && Indexed(retained, held) && root in held
      ensures Balanced(retained, held, multiset{}, multiset(latest + [root]))
      ensures Flagged(retained, held, latest) && bytes == Bytes(held)
    {
      hide Edges, Bytes, Balanced, Indexed, Reach;
      ghost var live := Reach(latest + [root]);
      ghost var owed := multiset(latest + [root]);
      LiveStart(retained, held, latest, root);
      var stack := [root];
      while stack != []
        invariant held <= live && forall x <- stack :: x in live
        invariant Indexed(retained, held) && Balanced(retained, held, multiset(stack), owed)
        invariant Flagged(retained, held, latest) && bytes == Bytes(held)
        invariant (forall x <- latest :: x in held) && (root in held || root in stack)
        decreases live - held, |stack|
      {
        var (x, rest) := (stack[|stack| - 1], stack[..|stack| - 1]);
        assert stack == rest + [x];
        LiveAt(retained, held, live, x);
        if x.at in retained {
          CountAgain(retained, held, rest, x, owed);
          retained := retained[x.at := retained[x.at].(references := retained[x.at].references + 1)];
          stack := rest;
        } else {
          CountNew(retained, held, rest, x, owed);
          LiveChildren(latest + [root], x);
          retained := retained[x.at := CachedNode(1, false)];
          bytes := bytes + x.size;
          held := held + {x};
          stack := rest + x.children;
        }
      }
      assert multiset(stack) == multiset{};
    }

    /** Gives back the root slot of `root`, which no longer is among the latest, and what only it held. */
    method Release(root: Arc)
      requires Distinct(held) && Indexed(retained, held) && bytes == Bytes(held)
      requires Balanced(retained, held, multiset{}, multiset(latest) + multiset{root})
      requires Flagged(retained, held, latest + [root]) && NoRepeats(latest) && root !in latest
      modifies `retained, `bytes, `held
      ensures Valid()
    {
      hide Edges, Bytes, Balanced, Indexed;
      OwedIsHeld(retained, held, multiset(latest) + multiset{root}, root);
      IndexedAt(retained, held, root);
      SetFlag(retained, held, root, false, multiset(latest) + multiset{root});
      retained := retained[root.at := retained[root.at].(root := false)];
      var stack := [root];
      assert multiset(stack) == multiset{root};
      while stack != []
        invariant Distinct(held) && Indexed(retained, held)
        invariant Balanced(retained, held, multiset{}, multiset(latest) + multiset(stack))
        invariant Flagged(retained, held, latest) && bytes == Bytes(held)
        decreases held, |stack|
      {
        var (x, rest) := (stack[|stack| - 1], stack[..|stack| - 1]);
        assert stack == rest + [x];
        assert x in held by {
          OwedIsHeld(retained, held, multiset(latest) + multiset(stack), x);
        }
        IndexedAt(retained, held, x);
        if retained[x.at].references > 1 {
          CountDown(retained, held, multiset(latest), rest, x);
          retained := retained[x.at := retained[x.at].(references := retained[x.at].references - 1)];
          stack := rest;
        } else {
          CountOut(retained, held, multiset(latest), rest, x);
          retained := retained - {x.at};
          bytes := bytes - x.size;
          held := held - {x};
          stack := rest + x.children;
        }
      }
      assert multiset(latest) + multiset(stack) == multiset(latest);
    }

    /** Drops the oldest roots, and only while the rest costs more than `limit`. */
    method Trim(limit: nat, tables: nat -> nat)
      requires Valid()
      modifies this
      ensures Valid() && Trimmed(latest, old(latest), limit, tables)
    {
      hide Edges, Bytes, Balanced, Indexed, Flagged, Distinct, NoRepeats, Reach, Trimming, Trimmed;
      var k := 0;
      TrimStart(latest, limit, tables);
      BytesOfReach(this);
      while bytes + tables(k) > limit && latest != []
        invariant Valid() && bytes == Bytes(Reach(latest)) && Trimming(latest, old(latest), limit, tables, k)
        decreases |latest|
      {
        var root := latest[0];
        SplitRoots(latest, retained, held);
        TrimStep(latest, old(latest), limit, tables, k);
        latest, k := latest[1..], k + 1;
        Release(root);
        BytesOfReach(this);
      }
      TrimEnd(latest, old(latest), limit, tables, k);
    }

    /** Holds `root` among the latest clocks, unless it is too big or already there. */
    method Keep(root: Arc, tables: nat -> nat)
      requires Valid() && Distinct(Reach(latest + [root]))
      modifies this
      ensures Valid()
      ensures root.len * ENTRY_BYTES > CACHE_BYTES || root in old(latest) ==>
        latest == old(latest) && retained == old(retained) && bytes == old(bytes)
      ensures root.len * ENTRY_BYTES <= CACHE_BYTES && root !in old(latest) ==>
        Trimmed(latest, old(latest) + [root], CACHE_BYTES, tables)
    {
      hide Edges, Bytes, Balanced, Indexed, Reach;
      if root.len * ENTRY_BYTES > CACHE_BYTES {
        return;
      }
      RootFlag(retained, held, latest, root);
      if root.at in retained && retained[root.at].root {
        return;
      }
      Remember(root);
      IndexedAt(retained, held, root);
      SetFlag(retained, held, root, true, multiset(latest + [root]));
      retained := retained[root.at := retained[root.at].(root := true)];
      latest := latest + [root];
      Trim(CACHE_BYTES, tables);
    }
  }

  /** A valid cache retains exactly what its latest roots reach; without roots it holds nothing. */
  lemma RetainedIsReach(cache: Cache)
    requires cache.Valid()
    ensures cache.held == Reach(cache.latest)
    ensures cache.retained.Keys == set x | x in Reach(cache.latest) :: x.at
    ensures forall x <- Reach(cache.latest) ::
      cache.retained[x.at]
        == CachedNode(Edges(Reach(cache.latest))[x] + (if x in cache.latest then 1 else 0), x in cache.latest)
    ensures cache.bytes == Bytes(Reach(cache.latest))
    ensures cache.latest == [] ==> cache.retained == map[] && cache.bytes == 0
  {
    hide Edges, Bytes;
    var (held, latest, retained) := (cache.held, cache.latest, cache.retained);
    BalancedIsReach(retained, held, latest);
    forall x <- held
      ensures retained[x.at].references == Edges(held)[x] + if x in latest then 1 else 0
    {
      assert References(retained, held, x) + multiset{}[x] == Edges(held)[x] + multiset(latest)[x];
      OnceEach(latest, x);
    }
    assert latest == [] ==> Bytes({}) == 0 by { NoBytes(); }
  }

  lemma BytesOfReach(cache: Cache)
    requires cache.Valid()
    ensures cache.bytes == Bytes(Reach(cache.latest))
  {
    hide Bytes, Reach, Edges;
    RetainedIsReach(cache);
  }

  lemma NoBytes()
    ensures Bytes({}) == 0
  {
  }

  lemma {:induction false} OnceEach(latest: seq<Arc>, x: Arc)
    requires NoRepeats(latest)
    ensures multiset(latest)[x] == if x in latest then 1 else 0
  {
    if latest != [] {
      var (init, last) := (latest[..|latest| - 1], latest[|latest| - 1]);
      assert latest == init + [last];
      OnceEach(init, x);
    }
  }
}
