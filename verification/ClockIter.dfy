/** Iterating a clock: entries in strictly increasing actor order, each exactly once. */
module ClockIter {
  import opened Prelude
  import opened ActorBits
  import opened ClockTrie
  import opened ClockShape

  type Item = (Actor, u64)

  /** The entries below a node, children in nibble order. */
  ghost function Flat(node: Node): seq<Item> {
    match node
    case Leaf(actor, count) => [(actor, count)]
    case Branch(_, _, _, _, children) => FlatAll(children)
  }

  ghost function FlatAll(children: seq<Node>): seq<Item> {
    if children == [] then [] else FlatAll(children[..|children| - 1]) + Flat(children[|children| - 1])
  }

  /** Flat lists of one sequence of nodes, then of more nodes. */
  lemma {:induction false} FlatConcat(a: seq<Node>, b: seq<Node>)
    ensures FlatAll(a + b) == FlatAll(a) + FlatAll(b)
  {
    if b == [] {
      assert a + b == a;
    } else {
      var (init, last) := (b[..|b| - 1], b[|b| - 1]);
      FlatConcat(a, init);
      assert (a + b)[..|a + b| - 1] == a + init;
    }
  }

  lemma FlatOne(node: Node)
    ensures FlatAll([node]) == Flat(node)
  {
  }

  ghost predicate Ascending(items: seq<Item>) {
    forall i, j :: 0 <= i < j < |items| ==> Less(items[i].0, items[j].0)
  }

  /** `items` are exactly the entries of `node`. */
  ghost predicate Lists(items: seq<Item>, node: Node)
    requires WellFormed(node)
  {
    && (forall i :: 0 <= i < |items| ==> Entry(node, items[i].0) == Some(items[i].1))
    && (forall x :: Entry(node, x).Some? ==> exists i :: 0 <= i < |items| && items[i].0 == x)
  }

  /** Entries of an earlier child come before entries of a later one. */
  lemma ChildrenAscend(node: Node, i: nat, j: nat, x: Actor, y: Actor)
    requires WellFormed(node) && node.Branch? && i < j < |node.children|
    requires WellFormed(node.children[i]) && WellFormed(node.children[j])
    requires Entry(node.children[i], x).Some? && Entry(node.children[j], y).Some?
    ensures Less(x, y)
  {
    hide Nibble, Slot;
    var (a, b) := (node.children[i], node.children[j]);
    assert Placed(node.level, node.bitmap, node.key, a, i);
    assert Placed(node.level, node.bitmap, node.key, b, j);
    SlotOrder(node.bitmap, Nibble(Key(a), node.level), Nibble(Key(b), node.level));
    EntryUnder(a, x);
    EntryUnder(b, y);
    AgreeLess(x, Key(a), node.level, Level(a));
    AgreeLess(y, Key(b), node.level, Level(b));
    AgreeTrans(x, Key(a), node.key, node.level);
    AgreeTrans(y, Key(b), node.key, node.level);
    AgreeSym(y, node.key, node.level);
    AgreeTrans(x, node.key, y, node.level);
    NibbleOrder(x, y, node.level);
  }

  /** The flat list of the first `n` children of a branch. */
  ghost predicate ListsFirst(items: seq<Item>, node: Node, n: nat)
    requires WellFormed(node) && node.Branch? && n <= |node.children|
  {
    && Ascending(items)
    && |items| == SumLen(node.children[..n])
    && (forall i :: 0 <= i < |items| ==> FromChild(node, n, items[i]))
    && (forall c, x :: 0 <= c < n && Entry(node.children[c], x).Some? ==>
          exists i :: 0 <= i < |items| && items[i].0 == x)
  }

  ghost predicate FromChild(node: Node, n: nat, item: Item)
    requires WellFormed(node) && node.Branch? && n <= |node.children|
  {
    exists c :: 0 <= c < n && Entry(node.children[c], item.0) == Some(item.1)
  }

  lemma FirstStep(node: Node, n: nat, items: seq<Item>, more: seq<Item>)
    requires WellFormed(node) && node.Branch? && n < |node.children|
    requires ListsFirst(items, node, n)
    requires Ascending(more) && |more| == Len(node.children[n]) && Lists(more, node.children[n])
    ensures ListsFirst(items + more, node, n + 1)
  {
    hide Ascending, Entry, FromChild, Lists, Slot, Placed;
    assert node.children[..n + 1][..n] == node.children[..n];
    FirstAscending(node, n, items, more);
    FirstHeld(node, n, items, more);
    FirstFound(node, n, items, more);
  }

  lemma FirstAscending(node: Node, n: nat, items: seq<Item>, more: seq<Item>)
    requires WellFormed(node) && node.Branch? && n < |node.children|
    requires ListsFirst(items, node, n)
    requires Ascending(more) && Lists(more, node.children[n])
    ensures Ascending(items + more)
  {
    hide Less, SumLen, Placed, Slot, Nibble, Agree;
    var all := items + more;
    forall i, j | 0 <= i < j < |all|
      ensures Less(all[i].0, all[j].0)
    {
      if i < |items| <= j {
        assert FromChild(node, n, items[i]);
        var c :| 0 <= c < n && Entry(node.children[c], items[i].0) == Some(items[i].1);
        ChildrenAscend(node, c, n, all[i].0, all[j].0);
      }
    }
  }

  lemma FirstHeld(node: Node, n: nat, items: seq<Item>, more: seq<Item>)
    requires WellFormed(node) && node.Branch? && n < |node.children|
    requires ListsFirst(items, node, n) && Lists(more, node.children[n])
    ensures forall i :: 0 <= i < |items + more| ==> FromChild(node, n + 1, (items + more)[i])
  {
    hide Ascending, SumLen;
    forall i | 0 <= i < |items + more|
      ensures FromChild(node, n + 1, (items + more)[i])
    {
      if i < |items| {
        assert FromChild(node, n, items[i]);
      } else {
        assert Entry(node.children[n], more[i - |items|].0) == Some(more[i - |items|].1);
      }
    }
  }

  lemma FirstFound(node: Node, n: nat, items: seq<Item>, more: seq<Item>)
    requires WellFormed(node) && node.Branch? && n < |node.children|
    requires ListsFirst(items, node, n) && Lists(more, node.children[n])
    ensures forall c, x :: 0 <= c < n + 1 && Entry(node.children[c], x).Some? ==>
      exists i :: 0 <= i < |items + more| && (items + more)[i].0 == x
  {
    hide Ascending, SumLen, FromChild;
    var all := items + more;
    forall c, x | 0 <= c < n + 1 && Entry(node.children[c], x).Some?
      ensures exists i :: 0 <= i < |all| && all[i].0 == x
    {
      if c < n {
        var i :| 0 <= i < |items| && items[i].0 == x;
        assert all[i].0 == x;
      } else {
        var i :| 0 <= i < |more| && more[i].0 == x;
        assert all[|items| + i].0 == x;
      }
    }
  }

  lemma {:induction false} FirstChildren(node: Node, n: nat)
    requires WellFormed(node) && node.Branch? && n <= |node.children|
    ensures ListsFirst(FlatAll(node.children[..n]), node, n)
    decreases node, 0, n
  {
    hide Nibble, Slot, ListsFirst, Less;
    if n == 0 {
      NoChildren(node);
    } else {
      FirstChildren(node, n - 1);
      FlatIsEntries(node.children[n - 1]);
      assert node.children[..n][..n - 1] == node.children[..n - 1];
      FirstStep(node, n - 1, FlatAll(node.children[..n - 1]), Flat(node.children[n - 1]));
    }
  }

  lemma NoChildren(node: Node)
    requires WellFormed(node) && node.Branch?
    ensures ListsFirst(FlatAll(node.children[..0]), node, 0)
  {
  }

  lemma AllListed(node: Node, items: seq<Item>)
    requires WellFormed(node) && node.Branch? && ListsFirst(items, node, |node.children|)
    ensures Ascending(items) && |items| == Len(node) && Lists(items, node)
  {
    hide Nibble, Slot, Less;
    assert node.children[..|node.children|] == node.children;
    forall i | 0 <= i < |items|
      ensures Entry(node, items[i].0) == Some(items[i].1)
    {
      assert FromChild(node, |node.children|, items[i]);
      var c :| 0 <= c < |node.children| && Entry(node.children[c], items[i].0) == Some(items[i].1);
      EntryAtChild(node, c, items[i].0);
    }
    forall x | Entry(node, x).Some?
      ensures exists i :: 0 <= i < |items| && items[i].0 == x
    {
      var c := Slot(node.bitmap, Nibble(x, node.level));
      assert Entry(node.children[c], x).Some?;
    }
  }

  /** Iteration order is actor order, every entry comes once, and `len` counts them. */
  lemma {:induction false} FlatIsEntries(node: Node)
    requires WellFormed(node)
    ensures Ascending(Flat(node)) && |Flat(node)| == Len(node) && Lists(Flat(node), node)
    decreases node, 1
  {
    hide Nibble, Slot, ListsFirst, Less, SumLen;
    if node.Branch? {
      FirstChildren(node, |node.children|);
      assert node.children[..|node.children|] == node.children;
      AllListed(node, Flat(node));
    } else {
      assert Flat(node)[0] == (node.actor, node.count);
    }
  }

  lemma {:induction false} SameShapeFlat(a: Node, b: Node)
    requires SameShape(a, b)
    ensures Flat(a) == Flat(b)
    decreases a, 1
  {
    if a.Branch? {
      SameShapesFlat(a.children, b.children);
    }
  }

  lemma {:induction false} SameShapesFlat(a: seq<Node>, b: seq<Node>)
    requires |a| == |b| && forall i :: 0 <= i < |a| ==> SameShape(a[i], b[i])
    ensures FlatAll(a) == FlatAll(b)
    decreases a, 0
  {
    if a != [] {
      SameShapesFlat(a[..|a| - 1], b[..|b| - 1]);
      SameShapeFlat(a[|a| - 1], b[|b| - 1]);
    }
  }

  /** Two clocks iterate alike exactly when they hold the same entries. */
  lemma FlatDecides(a: Node, b: Node)
    requires WellFormed(a) && WellFormed(b)
    ensures Flat(a) == Flat(b) <==> SameEntries(a, b)
  {
    hide Nibble, Slot, SumLen, Less, SameShape, WellFormed, Flat;
    if SameEntries(a, b) {
      ShapeIsCanonical(a, b);
      SameShapeFlat(a, b);
    }
    FlatIsEntries(a);
    FlatIsEntries(b);
    if Flat(a) == Flat(b) {
      forall x: Actor
        ensures Entry(a, x) == Entry(b, x)
      {
        ListedOnce(Flat(a), a, b, x);
      }
    }
  }

  lemma ListedOnce(items: seq<Item>, a: Node, b: Node, x: Actor)
    requires WellFormed(a) && WellFormed(b) && Lists(items, a) && Lists(items, b)
    ensures Entry(a, x) == Entry(b, x)
  {
  }

  // ---- the cursor ----

  /** What a stack of pending subtrees still yields, top first. */
  ghost function Pending(stack: seq<Node>): seq<Item> {
    FlatAll(Reversed(stack))
  }

  /** The slot of a pending subtree is bounded by its level: fifteen siblings per level. */
  ghost predicate Bounded(stack: seq<Node>) {
    forall i :: 0 <= i < |stack| ==> WellFormed(stack[i]) && i <= 15 * Level(stack[i])
  }

  lemma PopLeaf(stack: seq<Node>)
    requires stack != [] && stack[|stack| - 1].Leaf?
    ensures Pending(stack) == [(stack[|stack| - 1].actor, stack[|stack| - 1].count)] + Pending(stack[..|stack| - 1])
  {
    var (rest, top) := (stack[..|stack| - 1], stack[|stack| - 1]);
    assert Reversed(stack) == [top] + Reversed(rest);
    FlatConcat([top], Reversed(rest));
    FlatOne(top);
  }

  lemma ReversedPush(rest: seq<Node>, pushed: seq<Node>)
    ensures Reversed(rest + pushed) == Reversed(pushed) + Reversed(rest)
  {
  }

  lemma PopBranch(stack: seq<Node>)
    requires stack != [] && stack[|stack| - 1].Branch?
    ensures Pending(stack) == Pending(stack[..|stack| - 1] + Reversed(stack[|stack| - 1].children))
  {
    var (rest, top) := (stack[..|stack| - 1], stack[|stack| - 1]);
    ReversedPush(rest, [top]);
    assert rest + [top] == stack;
    assert Reversed([top]) == [top];
    FlatConcat([top], Reversed(rest));
    FlatOne(top);
    ReversedPush(rest, Reversed(top.children));
    assert Reversed(Reversed(top.children)) == top.children;
    FlatConcat(top.children, Reversed(rest));
  }

  lemma PushBounded(stack: seq<Node>)
    requires Bounded(stack) && stack != [] && stack[|stack| - 1].Branch?
    ensures Bounded(stack[..|stack| - 1] + Reversed(stack[|stack| - 1].children))
  {
  }

  /** Nodes still to be visited: falls with every pop. */
  ghost function Size(node: Node): nat {
    match node
    case Leaf(_, _) => 1
    case Branch(_, _, _, _, children) => 1 + SizeAll(children)
  }

  ghost function SizeAll(nodes: seq<Node>): nat {
    if nodes == [] then 0 else SizeAll(nodes[..|nodes| - 1]) + Size(nodes[|nodes| - 1])
  }

  lemma {:induction false} SizeConcat(a: seq<Node>, b: seq<Node>)
    ensures SizeAll(a + b) == SizeAll(a) + SizeAll(b)
  {
    if b == [] {
      assert a + b == a;
    } else {
      SizeConcat(a, b[..|b| - 1]);
      assert (a + b)[..|a + b| - 1] == a + b[..|b| - 1];
    }
  }

  lemma {:induction false} SizeReversed(nodes: seq<Node>)
    ensures SizeAll(Reversed(nodes)) == SizeAll(nodes)
  {
    if nodes != [] {
      SizeReversed(nodes[1..]);
      SizeConcat(Reversed(nodes[1..]), [nodes[0]]);
      assert [nodes[0]][..0] == [];
      assert nodes == [nodes[0]] + nodes[1..];
      SizeConcat([nodes[0]], nodes[1..]);
    }
  }

  /** A traversal of an immutable trie, resumable between entries. */
  class ClockCursor {
    var stack: seq<Node>

    ghost predicate Valid()
      reads this
    {
      Bounded(stack)
    }

    constructor (root: Option<Node>)
      requires root.Some? ==> WellFormed(root.value)
      ensures Valid()
      ensures Pending(stack) == if root.Some? then Flat(root.value) else []
    {
      stack := if root.Some? then [root.value] else [];
      new;
      if root.Some? {
        assert Reversed([root.value]) == [root.value];
        FlatOne(root.value);
      }
    }

    /** The next entry; the rest stays pending, on at most 15 * 64 + 1 nodes. */
    method Next() returns (item: Option<Item>)
      requires Valid()
      modifies this
      ensures Valid() && |stack| <= 15 * 64 + 1
      ensures item.None? <==> old(Pending(stack)) == []
      ensures item.None? ==> Pending(stack) == []
      ensures item.Some? ==> old(Pending(stack)) == [item.value] + Pending(stack)
    {
      while stack != []
        invariant Valid() && Pending(stack) == old(Pending(stack))
        decreases SizeAll(stack)
      {
        var top := stack[|stack| - 1];
        assert WellFormed(top);
        assert stack == stack[..|stack| - 1] + [top];
        assert SizeAll(stack) == SizeAll(stack[..|stack| - 1]) + Size(top);
        if top.Leaf? {
          PopLeaf(stack);
          StackBound(stack);
          stack := stack[..|stack| - 1];
          return Some((top.actor, top.count));
        }
        PopBranch(stack);
        PushBounded(stack);
        SizeConcat(stack[..|stack| - 1], Reversed(top.children));
        SizeReversed(top.children);
        stack := stack[..|stack| - 1] + Reversed(top.children);
      }
      item := None;
    }
  }

  lemma StackBound(stack: seq<Node>)
    requires Bounded(stack)
    ensures |stack| <= 15 * 64 + 1
  {
    if stack != [] {
      NodeLevel(stack[|stack| - 1]);
    }
  }
}
