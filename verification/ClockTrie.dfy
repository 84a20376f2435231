/**
 The persistent clock as a path-compressed trie, one nibble of the id a level. Well-formedness,
 lookup, and the plain map a trie denotes.
 */
module ClockTrie {
  import opened Prelude
  import opened ActorBits

  /** The sixteen bits of a branch's `u16`, lowest first: bit `d` says nibble `d` has a child. */
  type Bitmap = s: seq<bool> | |s| == 16 witness
    [false, false, false, false, false, false, false, false, false, false, false, false, false, false, false, false]

  const NO_BITS: Bitmap :=
    [false, false, false, false, false, false, false, false, false, false, false, false, false, false, false, false]

  datatype Node =
    | Leaf(actor: Actor, count: u64)
    | Branch(level: nat, bitmap: Bitmap, len: nat, key: Actor, children: seq<Node>)

  function Key(node: Node): Actor {
    if node.Leaf? then node.actor else node.key
  }

  function Len(node: Node): nat {
    if node.Leaf? then 1 else node.len
  }

  /** Where a node branches; a leaf stands past the last nibble. */
  function Level(node: Node): nat {
    if node.Leaf? then LEVELS else node.level
  }

  function SumLen(children: seq<Node>): nat {
    if children == [] then 0 else SumLen(children[..|children| - 1]) + Len(children[|children| - 1])
  }

  /** How many of the first `d` bits are set, so where the child for nibble `d` stands. */
  function Slot(bitmap: Bitmap, d: nat): (n: nat)
    requires d <= 16
    ensures n <= d
  {
    if d == 0 then 0 else Slot(bitmap, d - 1) + (if bitmap[d - 1] then 1 else 0)
  }

  /** Child `i` sits at the slot of its own nibble, below the branch and its prefix. */
  ghost predicate Placed(level: nat, bitmap: Bitmap, key: Actor, child: Node, i: nat) {
    && level < LEVELS
    && level < Level(child) <= LEVELS
    && Agree(Key(child), key, level)
    && bitmap[Nibble(Key(child), level)]
    && Slot(bitmap, Nibble(Key(child), level)) == i
  }

  ghost predicate WellFormed(node: Node) {
    node.Branch? ==>
      && node.level < LEVELS
      && 2 <= |node.children| == Slot(node.bitmap, 16)
      && node.len == SumLen(node.children)
      && (forall i :: 0 <= i < |node.children| ==> WellFormed(node.children[i]))
      && (forall i :: 0 <= i < |node.children| ==> Placed(node.level, node.bitmap, node.key, node.children[i], i))
  }

  // ---- slots ----

  lemma {:induction false} SlotMonotone(bitmap: Bitmap, d: nat, e: nat)
    requires d <= e <= 16
    ensures Slot(bitmap, d) <= Slot(bitmap, e)
    ensures d < e && bitmap[d] ==> Slot(bitmap, d) < Slot(bitmap, e)
    decreases e
  {
    if d < e {
      SlotMonotone(bitmap, d, e - 1);
    }
  }

  /** Set bits have distinct slots, in order. */
  lemma SlotOrder(bitmap: Bitmap, d: nat, e: nat)
    requires d < 16 && e < 16 && bitmap[d] && bitmap[e]
    ensures Slot(bitmap, d) < Slot(bitmap, 16)
    ensures Slot(bitmap, d) < Slot(bitmap, e) <==> d < e
    ensures Slot(bitmap, d) == Slot(bitmap, e) <==> d == e
  {
    SlotMonotone(bitmap, d, 16);
    if d < e {
      SlotMonotone(bitmap, d, e);
    } else if e < d {
      SlotMonotone(bitmap, e, d);
    }
  }

  lemma {:induction false} SlotSet(bitmap: Bitmap, d: nat, e: nat)
    requires d < 16 && e <= 16 && !bitmap[d]
    ensures Slot(bitmap[d := true], e) == Slot(bitmap, e) + if d < e then 1 else 0
  {
    if e > 0 {
      SlotSet(bitmap, d, e - 1);
    }
  }

  lemma SlotClear(bitmap: Bitmap, d: nat, e: nat)
    requires d < 16 && e <= 16 && bitmap[d]
    ensures Slot(bitmap[d := false], e) == Slot(bitmap, e) - if d < e then 1 else 0
  {
    assert bitmap[d := false][d := true] == bitmap;
    SlotSet(bitmap[d := false], d, e);
  }

  /** The child a set bit names carries that nibble. */
  lemma ChildDigit(node: Node, d: nat)
    requires WellFormed(node) && node.Branch? && d < 16 && node.bitmap[d]
    ensures Slot(node.bitmap, d) < |node.children|
    ensures Nibble(Key(node.children[Slot(node.bitmap, d)]), node.level) == d
  {
    SlotMonotone(node.bitmap, d, 16);
    var i := Slot(node.bitmap, d);
    assert i < |node.children| by { SlotOrder(node.bitmap, d, d); }
    assert Placed(node.level, node.bitmap, node.key, node.children[i], i);
    SlotOrder(node.bitmap, d, Nibble(Key(node.children[i]), node.level));
  }

  // ---- lookup ----

  /** The entry of `a`, by descending along its nibbles. */
  ghost function Entry(node: Node, a: Actor): (r: Option<u64>)
    requires WellFormed(node)
  {
    match node
    case Leaf(actor, count) => if actor == a then Some(count) else None
    case Branch(level, bitmap, _, _, children) =>
      var d := Nibble(a, level);
      if !bitmap[d] || |children| <= Slot(bitmap, d) then None else Entry(children[Slot(bitmap, d)], a)
  }

  /** Entries share the nibbles of the key before the node's level. */
  lemma {:induction false} EntryUnder(node: Node, a: Actor)
    requires WellFormed(node) && Entry(node, a).Some?
    ensures Agree(a, Key(node), Level(node))
  {
    if node.Branch? {
      var d := Nibble(a, node.level);
      ChildDigit(node, d);
      var i := Slot(node.bitmap, d);
      assert Placed(node.level, node.bitmap, node.key, node.children[i], i);
      EntryUnder(node.children[i], a);
    }
  }

  lemma EntryOfChild(node: Node, i: nat, a: Actor)
    requires WellFormed(node) && node.Branch? && i < |node.children|
    requires WellFormed(node.children[i])
    requires Nibble(a, node.level) == Nibble(Key(node.children[i]), node.level)
    ensures Entry(node, a) == Entry(node.children[i], a)
  {
  }

  // ---- the map a trie denotes ----

  type Counts = map<Actor, u64>

  ghost function Entries(node: Node): Counts {
    match node
    case Leaf(actor, count) => map[actor := count]
    case Branch(_, _, _, _, children) => AllEntries(children)
  }

  ghost function AllEntries(children: seq<Node>): Counts {
    if children == [] then map[] else AllEntries(children[..|children| - 1]) + Entries(children[|children| - 1])
  }

  lemma {:induction false} AllEntriesFrom(children: seq<Node>, a: Actor)
    ensures a in AllEntries(children) <==> exists i :: 0 <= i < |children| && a in Entries(children[i])
    ensures a in AllEntries(children) ==>
      exists i :: 0 <= i < |children| && a in Entries(children[i]) && AllEntries(children)[a] == Entries(children[i])[a]
  {
    if children != [] {
      var (init, last) := (children[..|children| - 1], children[|children| - 1]);
      AllEntriesFrom(init, a);
      if a in Entries(last) {
        assert children[|children| - 1] == last;
      } else if a in AllEntries(init) {
        var i :| 0 <= i < |init| && a in Entries(init[i]) && AllEntries(init)[a] == Entries(init[i])[a];
        assert children[i] == init[i];
      }
      forall i | 0 <= i < |children| && a in Entries(children[i])
        ensures a in AllEntries(children)
      {
        if i < |init| {
          assert init[i] == children[i];
        }
      }
    }
  }

  /** Lookup reads the map. */
  lemma {:induction false} EntriesEntry(node: Node, a: Actor)
    requires WellFormed(node)
    ensures Entry(node, a) == if a in Entries(node) then Some(Entries(node)[a]) else None
    decreases node
  {
    if node.Branch? {
      AllEntriesFrom(node.children, a);
      var d := Nibble(a, node.level);
      if Entry(node, a).Some? {
        ChildDigit(node, d);
        EntriesEntry(node.children[Slot(node.bitmap, d)], a);
      }
      forall i | 0 <= i < |node.children| && a in Entries(node.children[i])
        ensures Entry(node, a) == Some(Entries(node.children[i])[a])
      {
        var child := node.children[i];
        EntriesEntry(child, a);
        EntryUnder(child, a);
        assert Placed(node.level, node.bitmap, node.key, child, i);
        EntryOfChild(node, i, a);
      }
    }
  }

  /** Two tries that answer every lookup alike hold the same entries. */
  lemma SameLookups(a: Node, b: Node)
    requires WellFormed(a) && WellFormed(b) && forall x :: Entry(a, x) == Entry(b, x)
    ensures Entries(a) == Entries(b)
  {
    forall x | x in Entries(a) || x in Entries(b)
      ensures x in Entries(a) && x in Entries(b) && Entries(a)[x] == Entries(b)[x]
    {
      EntriesEntry(a, x);
      EntriesEntry(b, x);
    }
  }
}
