/**
 The shape of a clock trie is decided by its entries, and iterating it yields them in
 actor order, once each, with a bounded stack.
 */
module ClockShape {
  import opened Prelude
  import opened ActorBits
  import opened ClockTrie

  /** Equal but for the `key` fields of branches. */
  ghost predicate SameShape(a: Node, b: Node) {
    match (a, b)
    case (Leaf(x, m), Leaf(y, n)) => x == y && m == n
    case (Branch(la, ba, na, _, ca), Branch(lb, bb, nb, _, cb)) =>
      && la == lb && ba == bb && na == nb && |ca| == |cb|
      && forall i :: 0 <= i < |ca| ==> SameShape(ca[i], cb[i])
    case _ => false
  }

  lemma NodeLevel(node: Node)
    requires WellFormed(node)
    ensures Level(node) <= LEVELS
  {
  }

  /** No well-formed node is empty. */
  lemma {:induction false} SomeEntry(node: Node) returns (x: Actor)
    requires WellFormed(node)
    ensures Entry(node, x).Some?
    decreases node
  {
    if node.Leaf? {
      x := node.actor;
    } else {
      x := ChildEntry(node, 0);
    }
  }

  /** An entry of child `i`; it carries the child's nibble. */
  lemma ChildEntry(node: Node, i: nat) returns (x: Actor)
    requires WellFormed(node) && node.Branch? && i < |node.children|
    ensures WellFormed(node.children[i])
    ensures Entry(node.children[i], x).Some? && Entry(node, x) == Entry(node.children[i], x)
    ensures Nibble(x, node.level) == Nibble(Key(node.children[i]), node.level)
    decreases node, 0
  {
    hide Nibble, Slot;
    var child := node.children[i];
    x := SomeEntry(child);
    EntryAtChild(node, i, x);
  }

  /** An entry of a child is an entry of the branch, at the child's nibble. */
  lemma EntryAtChild(node: Node, i: nat, x: Actor)
    requires WellFormed(node) && node.Branch? && i < |node.children| && WellFormed(node.children[i])
    ensures Entry(node.children[i], x).Some? ==>
      && Nibble(x, node.level) == Nibble(Key(node.children[i]), node.level)
      && Entry(node, x) == Entry(node.children[i], x)
    ensures Entry(node.children[i], x).None? && Nibble(x, node.level) == Nibble(Key(node.children[i]), node.level) ==>
      Entry(node, x).None?
  {
    hide Nibble, Slot;
    var child := node.children[i];
    assert Placed(node.level, node.bitmap, node.key, child, i);
    NodeLevel(child);
    if Entry(child, x).Some? {
      EntryUnder(child, x);
      AgreeLess(x, Key(child), node.level, Level(child));
    }
    if Nibble(x, node.level) == Nibble(Key(child), node.level) {
      EntryOfChild(node, i, x);
    }
  }

  /** A branch holds two entries that part at its level. */
  lemma TwoEntries(node: Node) returns (x: Actor, y: Actor)
    requires WellFormed(node) && node.Branch?
    ensures Entry(node, x).Some? && Entry(node, y).Some?
    ensures Nibble(x, node.level) != Nibble(y, node.level)
  {
    hide Nibble, Slot;
    x := ChildEntry(node, 0);
    y := ChildEntry(node, 1);
    assert Placed(node.level, node.bitmap, node.key, node.children[0], 0);
    assert Placed(node.level, node.bitmap, node.key, node.children[1], 1);
  }

  /** Two entries of one node cannot part above its level. */
  lemma EntriesMeet(node: Node, x: Actor, y: Actor, l: nat)
    requires WellFormed(node) && Entry(node, x).Some? && Entry(node, y).Some? && l < Level(node)
    ensures l < LEVELS && Nibble(x, l) == Nibble(y, l)
  {
    NodeLevel(node);
    EntryUnder(node, x);
    EntryUnder(node, y);
    AgreeLess(x, Key(node), l, Level(node));
    AgreeLess(y, Key(node), l, Level(node));
  }

  ghost predicate SameEntries(a: Node, b: Node)
    requires WellFormed(a) && WellFormed(b)
  {
    forall x :: Entry(a, x) == Entry(b, x)
  }

  /** The level is where entries first part, so equal entries give equal levels. */
  lemma SameLevel(a: Node, b: Node)
    requires WellFormed(a) && WellFormed(b) && SameEntries(a, b)
    ensures Level(a) == Level(b)
  {
    hide Nibble, Slot, WellFormed;
    NodeLevel(a);
    NodeLevel(b);
    if Level(a) < Level(b) {
      var x, y := TwoEntries(a);
      EntriesMeet(b, x, y, Level(a));
      assert false;
    }
    if Level(b) < Level(a) {
      var x, y := TwoEntries(b);
      EntriesMeet(a, x, y, Level(b));
      assert false;
    }
  }

  /** A bit is set when some entry carries its nibble. */
  lemma BitHasEntry(a: Node, b: Node, d: nat)
    requires WellFormed(a) && WellFormed(b) && a.Branch? && b.Branch? && SameEntries(a, b)
    requires a.level == b.level && d < 16 && a.bitmap[d]
    ensures b.bitmap[d]
  {
    hide Nibble, Slot;
    ChildDigit(a, d);
    var x := ChildEntry(a, Slot(a.bitmap, d));
  }

  lemma SameBitmap(a: Node, b: Node)
    requires WellFormed(a) && WellFormed(b) && a.Branch? && b.Branch? && SameEntries(a, b)
    requires a.level == b.level
    ensures a.bitmap == b.bitmap
  {
    forall d | 0 <= d < 16
      ensures a.bitmap[d] == b.bitmap[d]
    {
      if a.bitmap[d] {
        BitHasEntry(a, b, d);
      }
      if b.bitmap[d] {
        BitHasEntry(b, a, d);
      }
    }
  }

  lemma SameChildEntries(a: Node, b: Node, i: nat)
    requires WellFormed(a) && WellFormed(b) && a.Branch? && b.Branch? && SameEntries(a, b)
    requires a.level == b.level && a.bitmap == b.bitmap && |a.children| == |b.children| && i < |a.children|
    ensures WellFormed(a.children[i]) && WellFormed(b.children[i]) && SameEntries(a.children[i], b.children[i])
  {
    hide Nibble, Slot;
    assert Placed(a.level, a.bitmap, a.key, a.children[i], i);
    assert Placed(b.level, b.bitmap, b.key, b.children[i], i);
    SlotOrder(a.bitmap, Nibble(Key(a.children[i]), a.level), Nibble(Key(b.children[i]), a.level));
    forall x: Actor
      ensures Entry(a.children[i], x) == Entry(b.children[i], x)
    {
      EntryAtChild(a, i, x);
      EntryAtChild(b, i, x);
    }
  }

  lemma {:induction false} SameLens(a: seq<Node>, b: seq<Node>)
    requires |a| == |b| && forall i :: 0 <= i < |a| ==> SameShape(a[i], b[i])
    ensures SumLen(a) == SumLen(b)
  {
    if a != [] {
      SameLens(a[..|a| - 1], b[..|b| - 1]);
      assert SameShape(a[|a| - 1], b[|b| - 1]);
    }
  }

  /**
   Equal entries, equal shape: levels, bitmaps, lengths and child structure follow from
   the entries. Only `key` fields, and with them stored hashes, may differ.
   */
  lemma {:induction false} ShapeIsCanonical(a: Node, b: Node)
    requires WellFormed(a) && WellFormed(b) && SameEntries(a, b)
    ensures SameShape(a, b)
    decreases a
  {
    hide Nibble, Slot, SumLen;
    SameLevel(a, b);
    if a.Leaf? {
      assert Entry(a, a.actor) == Entry(b, a.actor);
    } else {
      SameBitmap(a, b);
      forall i | 0 <= i < |a.children|
        ensures SameShape(a.children[i], b.children[i])
      {
        SameChildEntries(a, b, i);
        ShapeIsCanonical(a.children[i], b.children[i]);
      }
      SameLens(a.children, b.children);
    }
  }
}
