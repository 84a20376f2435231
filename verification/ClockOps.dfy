/** Updates of a clock trie: setting, removing and merging entries along shared paths. */
module ClockOps {
  import opened Prelude
  import opened ActorBits
  import opened ClockTrie

  /** `node` lies below the first `level` nibbles of `key`. */
  ghost predicate Fits(node: Node, key: Actor, level: nat) {
    level <= LEVELS && level <= Level(node) && Level(node) <= LEVELS && Agree(Key(node), key, level)
  }

  lemma WellFormedLevel(node: Node)
    requires WellFormed(node)
    ensures Level(node) <= LEVELS && (node.Branch? ==> Level(node) < LEVELS)
  {
  }

  function MakeBranch(level: nat, bitmap: Bitmap, key: Actor, children: seq<Node>): Node {
    Branch(level, bitmap, SumLen(children), key, children)
  }

  /** Children placed under one key are placed under any key with the same prefix. */
  lemma Rekey(level: nat, bitmap: Bitmap, key: Actor, key': Actor, children: seq<Node>)
    requires level < LEVELS && Agree(key', key, level)
    requires forall i :: 0 <= i < |children| ==> Placed(level, bitmap, key, children[i], i)
    ensures forall i :: 0 <= i < |children| ==> Placed(level, bitmap, key', children[i], i)
  {
  }

  // ---- a branch over two subtrees ----

  function PairBitmap(na: nat, nb: nat): Bitmap
    requires na < 16 && nb < 16
  {
    NO_BITS[na := true][nb := true]
  }

  lemma {:induction false} NoSlots(d: nat)
    requires d <= 16
    ensures Slot(NO_BITS, d) == 0
  {
    if d > 0 {
      NoSlots(d - 1);
    }
  }

  lemma PairSlots(na: nat, nb: nat, d: nat)
    requires na < 16 && nb < 16 && na != nb && d <= 16
    ensures Slot(PairBitmap(na, nb), d) == (if na < d then 1 else 0) + (if nb < d then 1 else 0)
    ensures d < 16 ==> (PairBitmap(na, nb)[d] <==> d == na || d == nb)
  {
    NoSlots(d);
    SlotSet(NO_BITS, na, d);
    SlotSet(NO_BITS[na := true], nb, d);
  }

  /** The branch that joins two subtrees by their nibbles at `level`, the lower nibble first. */
  function Pair(level: nat, a: Node, b: Node): Node
    requires level < LEVELS
  {
    var (na, nb) := (Nibble(Key(a), level), Nibble(Key(b), level));
    Branch(level, PairBitmap(na, nb), Len(a) + Len(b), Key(a), if na < nb then [a, b] else [b, a])
  }

  lemma SumLenTwo(x: Node, y: Node)
    ensures SumLen([x, y]) == Len(x) + Len(y)
  {
    assert [x, y][..1] == [x];
    assert SumLen([x]) == SumLen([x][..0]) + Len(x);
  }

  lemma PairWellFormed(level: nat, a: Node, b: Node)
    requires WellFormed(a) && WellFormed(b) && level < Level(a) && level < Level(b) && level < LEVELS
    requires Agree(Key(a), Key(b), level) && Nibble(Key(a), level) != Nibble(Key(b), level)
    ensures WellFormed(Pair(level, a, b))
  {
    hide Slot, Nibble, SumLen, PairBitmap;
    var (na, nb) := (Nibble(Key(a), level), Nibble(Key(b), level));
    WellFormedLevel(a);
    WellFormedLevel(b);
    PairSlots(na, nb, na);
    PairSlots(na, nb, nb);
    PairSlots(na, nb, 16);
    SumLenTwo(a, b);
    SumLenTwo(b, a);
  }

  lemma PairIsUnion(level: nat, a: Node, b: Node)
    requires WellFormed(a) && WellFormed(b) && level < Level(a) && level < Level(b) && level < LEVELS
    requires Agree(Key(a), Key(b), level) && Nibble(Key(a), level) != Nibble(Key(b), level)
    ensures WellFormed(Pair(level, a, b))
    ensures forall x :: Entry(Pair(level, a, b), x) == if Entry(a, x).Some? then Entry(a, x) else Entry(b, x)
    ensures forall x :: Entry(a, x).None? || Entry(b, x).None?
  {
    PairWellFormed(level, a, b);
    forall x: Actor
      ensures Entry(Pair(level, a, b), x) == if Entry(a, x).Some? then Entry(a, x) else Entry(b, x)
      ensures Entry(a, x).None? || Entry(b, x).None?
    {
      PairEntry(level, a, b, x);
    }
  }

  lemma PairEntry(level: nat, a: Node, b: Node, x: Actor)
    requires WellFormed(a) && WellFormed(b) && level < Level(a) && level < Level(b) && level < LEVELS
    requires Agree(Key(a), Key(b), level) && Nibble(Key(a), level) != Nibble(Key(b), level)
    requires WellFormed(Pair(level, a, b))
    ensures Entry(Pair(level, a, b), x) == if Entry(a, x).Some? then Entry(a, x) else Entry(b, x)
    ensures Entry(a, x).None? || Entry(b, x).None?
  {
    hide Slot, Nibble, SumLen, PairBitmap;
    var (na, nb) := (Nibble(Key(a), level), Nibble(Key(b), level));
    WellFormedLevel(a);
    WellFormedLevel(b);
    PairSlots(na, nb, na);
    PairSlots(na, nb, nb);
    PairSlots(na, nb, Nibble(x, level));
    if Entry(a, x).Some? {
      EntryUnder(a, x);
      assert Nibble(x, level) == na;
    }
    if Entry(b, x).Some? {
      EntryUnder(b, x);
      assert Nibble(x, level) == nb;
    }
  }

  // ---- changing one child of a branch ----

  /** Both children and their slots in a branch are well-formed, so the branch is. */
  lemma Assemble(level: nat, bitmap: Bitmap, key: Actor, children: seq<Node>)
    requires level < LEVELS && 2 <= |children| == Slot(bitmap, 16)
    requires forall i :: 0 <= i < |children| ==> WellFormed(children[i])
    requires forall i :: 0 <= i < |children| ==> Placed(level, bitmap, key, children[i], i)
    ensures WellFormed(MakeBranch(level, bitmap, key, children))
  {
  }

  /** Where a child's nibble stands relative to another, by their slots. */
  lemma ChildOrder(node: Node, i: nat, d: nat)
    requires WellFormed(node) && node.Branch? && i < |node.children| && d < 16
    ensures Placed(node.level, node.bitmap, node.key, node.children[i], i)
    ensures node.bitmap[d] ==> (i == Slot(node.bitmap, d) <==> Nibble(Key(node.children[i]), node.level) == d)
    ensures Nibble(Key(node.children[i]), node.level) < d <==> i < Slot(node.bitmap, d)
  {
    assert Placed(node.level, node.bitmap, node.key, node.children[i], i);
    var e := Nibble(Key(node.children[i]), node.level);
    if e < d {
      SlotMonotone(node.bitmap, e, d);
    } else {
      SlotMonotone(node.bitmap, d, e);
    }
    if node.bitmap[d] {
      SlotOrder(node.bitmap, e, d);
    }
  }

  ghost predicate Under(level: nat, key: Actor, child: Node, d: nat) {
    && level < LEVELS
    && level < Level(child) <= LEVELS
    && Agree(Key(child), key, level)
    && Nibble(Key(child), level) == d
  }

  lemma ReplaceChild(node: Node, d: nat, child: Node, key: Actor)
    requires WellFormed(node) && node.Branch? && d < 16 && node.bitmap[d]
    requires WellFormed(child) && Under(node.level, node.key, child, d)
    requires Agree(key, node.key, node.level)
    ensures Slot(node.bitmap, d) < |node.children|
    ensures var r := MakeBranch(node.level, node.bitmap, key, node.children[Slot(node.bitmap, d) := child]);
      && WellFormed(r)
      && forall x :: Entry(r, x) == if Nibble(x, node.level) == d then Entry(child, x) else Entry(node, x)
  {
    hide Slot, Nibble, Agree, SumLen;
    ChildDigit(node, d);
    var i := Slot(node.bitmap, d);
    var children := node.children[i := child];
    forall j | 0 <= j < |children|
      ensures Placed(node.level, node.bitmap, node.key, children[j], j)
    {
      ChildOrder(node, j, d);
    }
    Rekey(node.level, node.bitmap, node.key, key, children);
    Assemble(node.level, node.bitmap, key, children);
    var r := MakeBranch(node.level, node.bitmap, key, children);
    forall x: Actor
      ensures Entry(r, x) == if Nibble(x, node.level) == d then Entry(child, x) else Entry(node, x)
    {
      var e := Nibble(x, node.level);
      if node.bitmap[e] {
        SlotOrder(node.bitmap, d, e);
      }
    }
  }

  function Inserted(node: Node, d: nat, child: Node, key: Actor): Node
    requires node.Branch? && d < 16 && Slot(node.bitmap, d) <= |node.children|
  {
    var i := Slot(node.bitmap, d);
    MakeBranch(node.level, node.bitmap[d := true], key, node.children[..i] + [child] + node.children[i..])
  }

  lemma InsertedWellFormed(node: Node, d: nat, child: Node, key: Actor)
    requires WellFormed(node) && node.Branch? && d < 16 && !node.bitmap[d]
    requires WellFormed(child) && Under(node.level, node.key, child, d)
    requires Agree(key, node.key, node.level)
    ensures Slot(node.bitmap, d) <= |node.children| && WellFormed(Inserted(node, d, child, key))
  {
    hide Slot, Nibble, Agree, SumLen;
    SlotMonotone(node.bitmap, d, 16);
    var i := Slot(node.bitmap, d);
    var bitmap: Bitmap := node.bitmap[d := true];
    var children := node.children[..i] + [child] + node.children[i..];
    SlotSet(node.bitmap, d, 16);
    SlotSet(node.bitmap, d, d);
    forall j | 0 <= j < |children|
      ensures WellFormed(children[j]) && Placed(node.level, bitmap, node.key, children[j], j)
    {
      if j != i {
        var k := if j < i then j else j - 1;
        assert children[j] == node.children[k];
        ChildOrder(node, k, d);
        SlotSet(node.bitmap, d, Nibble(Key(children[j]), node.level));
      }
    }
    Rekey(node.level, bitmap, node.key, key, children);
    Assemble(node.level, bitmap, key, children);
  }

  lemma InsertedLookup(node: Node, d: nat, child: Node, key: Actor, x: Actor)
    requires WellFormed(node) && node.Branch? && d < 16 && !node.bitmap[d]
    requires Slot(node.bitmap, d) <= |node.children| && WellFormed(child)
    requires WellFormed(Inserted(node, d, child, key))
    ensures Entry(Inserted(node, d, child, key), x) ==
      if Nibble(x, node.level) == d then Entry(child, x) else Entry(node, x)
  {
    hide Slot, Nibble, Agree, SumLen, Placed;
    var e := Nibble(x, node.level);
    SlotSet(node.bitmap, d, e);
    SlotSet(node.bitmap, d, d);
    if node.bitmap[e] {
      ChildDigit(node, e);
      ChildOrder(node, Slot(node.bitmap, e), d);
    }
  }

  lemma InsertChild(node: Node, d: nat, child: Node, key: Actor)
    requires WellFormed(node) && node.Branch? && d < 16 && !node.bitmap[d]
    requires WellFormed(child) && Under(node.level, node.key, child, d)
    requires Agree(key, node.key, node.level)
    ensures Slot(node.bitmap, d) <= |node.children| && WellFormed(Inserted(node, d, child, key))
    ensures forall x ::
      Entry(Inserted(node, d, child, key), x)
        == (if Nibble(x, node.level) == d then Entry(child, x) else Entry(node, x))
  {
    hide Slot, Nibble, Agree, SumLen, Placed;
    InsertedWellFormed(node, d, child, key);
    forall x: Actor
      ensures Entry(Inserted(node, d, child, key), x)
        == if Nibble(x, node.level) == d then Entry(child, x) else Entry(node, x)
    {
      InsertedLookup(node, d, child, key, x);
    }
  }

  function Removed(node: Node, d: nat, key: Actor): Node
    requires node.Branch? && d < 16 && Slot(node.bitmap, d) < |node.children|
  {
    var i := Slot(node.bitmap, d);
    MakeBranch(node.level, node.bitmap[d := false], key, node.children[..i] + node.children[i + 1..])
  }

  lemma RemovedWellFormed(node: Node, d: nat, key: Actor)
    requires WellFormed(node) && node.Branch? && d < 16 && node.bitmap[d] && 3 <= |node.children|
    requires Agree(key, node.key, node.level)
    ensures Slot(node.bitmap, d) < |node.children| && WellFormed(Removed(node, d, key))
  {
    hide Slot, Nibble, Agree, SumLen;
    ChildDigit(node, d);
    var i := Slot(node.bitmap, d);
    var bitmap: Bitmap := node.bitmap[d := false];
    var children := node.children[..i] + node.children[i + 1..];
    SlotClear(node.bitmap, d, 16);
    forall j | 0 <= j < |children|
      ensures WellFormed(children[j]) && Placed(node.level, bitmap, node.key, children[j], j)
    {
      var k := if j < i then j else j + 1;
      assert children[j] == node.children[k];
      ChildOrder(node, k, d);
      SlotClear(node.bitmap, d, Nibble(Key(children[j]), node.level));
    }
    Rekey(node.level, bitmap, node.key, key, children);
    Assemble(node.level, bitmap, key, children);
  }

  lemma RemovedLookup(node: Node, d: nat, key: Actor, x: Actor)
    requires WellFormed(node) && node.Branch? && d < 16 && node.bitmap[d]
    requires Slot(node.bitmap, d) < |node.children| && WellFormed(Removed(node, d, key))
    ensures Entry(Removed(node, d, key), x) == if Nibble(x, node.level) == d then None else Entry(node, x)
  {
    hide Slot, Nibble, Agree, SumLen, Placed;
    var e := Nibble(x, node.level);
    SlotClear(node.bitmap, d, e);
    if node.bitmap[e] {
      ChildDigit(node, e);
      ChildOrder(node, Slot(node.bitmap, e), d);
    }
  }

  lemma RemoveChild(node: Node, d: nat, key: Actor)
    requires WellFormed(node) && node.Branch? && d < 16 && node.bitmap[d] && 3 <= |node.children|
    requires Agree(key, node.key, node.level)
    ensures Slot(node.bitmap, d) < |node.children| && WellFormed(Removed(node, d, key))
    ensures forall x ::
      Entry(Removed(node, d, key), x) == (if Nibble(x, node.level) == d then None else Entry(node, x))
  {
    hide Slot, Nibble, Agree, SumLen, Placed;
    RemovedWellFormed(node, d, key);
    forall x: Actor
      ensures Entry(Removed(node, d, key), x) == if Nibble(x, node.level) == d then None else Entry(node, x)
    {
      RemovedLookup(node, d, key, x);
    }
  }

  /** With two children, removing one leaves the other standing for the branch. */
  lemma OnlyChild(node: Node, d: nat)
    requires WellFormed(node) && node.Branch? && d < 16 && node.bitmap[d] && |node.children| == 2
    ensures Slot(node.bitmap, d) < 2
    ensures
      var only := node.children[1 - Slot(node.bitmap, d)];
      && WellFormed(only) && Level(only) > node.level && Agree(Key(only), node.key, node.level)
      && forall x :: Entry(only, x) == if Nibble(x, node.level) == d then None else Entry(node, x)
  {
    hide Slot, Nibble, Agree, SumLen;
    ChildDigit(node, d);
    var i := 1 - Slot(node.bitmap, d);
    var only := node.children[i];
    ChildOrder(node, i, d);
    WellFormedLevel(only);
    forall x: Actor
      ensures Entry(only, x) == if Nibble(x, node.level) == d then None else Entry(node, x)
    {
      OnlyEntry(node, d, i, x);
    }
  }

  lemma OnlyEntry(node: Node, d: nat, i: nat, x: Actor)
    requires WellFormed(node) && node.Branch? && d < 16 && node.bitmap[d] && |node.children| == 2
    requires i < 2 && i == 1 - Slot(node.bitmap, d) && WellFormed(node.children[i])
    ensures Entry(node.children[i], x) == if Nibble(x, node.level) == d then None else Entry(node, x)
  {
    hide Slot, Nibble, Agree, SumLen;
    var (only, e) := (node.children[i], Nibble(x, node.level));
    WellFormedLevel(only);
    ChildOrder(node, i, d);
    if Entry(only, x).Some? {
      EntryUnder(only, x);
      AgreeLess(x, Key(only), node.level, Level(only));
    }
    if node.bitmap[e] {
      ChildDigit(node, e);
      ChildOrder(node, i, e);
      SlotOrder(node.bitmap, d, e);
    }
  }

  // ---- setting one entry ----

  /** `r` is `node` with `actor` at `count`, or without it for `None`. */
  ghost predicate Updated(node: Node, r: Node, actor: Actor, count: Option<u64>)
    requires WellFormed(node) && WellFormed(r)
  {
    forall x :: Entry(r, x) == if x == actor then count else Entry(node, x)
  }

  /** `r` lies wherever `node`, and the actor it gained, lie. */
  ghost predicate StaysPut(node: Node, r: Node, actor: Actor, count: Option<u64>) {
    forall key, level :: Fits(node, key, level) && (count.None? || Agree(actor, key, level)) ==> Fits(r, key, level)
  }

  /** A new leaf beside `node`, at the first nibble where they part. */
  lemma PairStays(node: Node, actor: Actor, count: u64, level: nat)
    requires WellFormed(node) && FirstDifference(Key(node), actor) == Some(level) && level < Level(node)
    ensures WellFormed(Pair(level, node, Leaf(actor, count)))
    ensures Updated(node, Pair(level, node, Leaf(actor, count)), actor, Some(count))
    ensures StaysPut(node, Pair(level, node, Leaf(actor, count)), actor, Some(count))
  {
    hide Nibble, Slot;
    var leaf := Leaf(actor, count);
    var r := Pair(level, node, leaf);
    WellFormedLevel(node);
    PairIsUnion(level, node, leaf);
    assert Entry(leaf, actor) == Some(count);
    forall key, l | Fits(node, key, l) && Agree(actor, key, l)
      ensures Fits(r, key, l)
    {
      AgreeSym(actor, key, l);
      AgreeTrans(Key(node), key, actor, l);
      AgreeBefore(Key(node), actor, l);
    }
  }

  /** The branch that keeps `level` stays put under any key of its prefix. */
  lemma BranchStays(node: Node, r: Node, actor: Actor, count: Option<u64>)
    requires WellFormed(node) && node.Branch? && Level(r) <= LEVELS
    requires Level(r) >= node.level && Agree(Key(r), node.key, node.level)
    ensures StaysPut(node, r, actor, count)
  {
  }

  lemma ReplacedEntry(node: Node, d: nat, child: Node, child': Node, r: Node, actor: Actor, count: Option<u64>)
    requires WellFormed(node) && node.Branch? && d < 16 && node.bitmap[d]
    requires Slot(node.bitmap, d) < |node.children| && child == node.children[Slot(node.bitmap, d)]
    requires WellFormed(child) && WellFormed(child') && WellFormed(r)
    requires Nibble(actor, node.level) == d && Updated(child, child', actor, count)
    requires forall x :: Entry(r, x) == if Nibble(x, node.level) == d then Entry(child', x) else Entry(node, x)
    ensures Updated(node, r, actor, count)
  {
    hide Nibble, Slot;
  }

  lemma GoneEntry(node: Node, d: nat, r: Node, actor: Actor)
    requires WellFormed(node) && node.Branch? && d < 16 && node.bitmap[d]
    requires Slot(node.bitmap, d) < |node.children|
    requires node.children[Slot(node.bitmap, d)].Leaf? && node.children[Slot(node.bitmap, d)].actor == actor
    requires WellFormed(r) && Nibble(actor, node.level) == d
    requires forall x :: Entry(r, x) == if Nibble(x, node.level) == d then None else Entry(node, x)
    ensures Updated(node, r, actor, None)
  {
    hide Nibble, Slot;
  }

  lemma InsertedEntry(node: Node, d: nat, r: Node, actor: Actor, count: u64)
    requires WellFormed(node) && node.Branch? && d < 16 && !node.bitmap[d]
    requires WellFormed(r) && Nibble(actor, node.level) == d
    requires forall x ::
      Entry(r, x) == (if Nibble(x, node.level) == d then Entry(Leaf(actor, count), x) else Entry(node, x))
    ensures Updated(node, r, actor, Some(count))
  {
    hide Nibble, Slot;
  }

  lemma ChildFits(node: Node, d: nat)
    requires WellFormed(node) && node.Branch? && d < 16 && node.bitmap[d]
    ensures Slot(node.bitmap, d) < |node.children|
    ensures
      var child := node.children[Slot(node.bitmap, d)];
      WellFormed(child) && Under(node.level, node.key, child, d) && Fits(child, Key(child), node.level + 1)
  {
    ChildDigit(node, d);
    var i := Slot(node.bitmap, d);
    assert Placed(node.level, node.bitmap, node.key, node.children[i], i);
    AgreeSelf(Key(node.children[i]), node.level + 1);
  }

  /** A child that stays under the old child's nibbles stays in its slot. */
  lemma StaysUnder(level: nat, key: Actor, child: Node, child': Node, d: nat)
    requires Under(level, key, child, d) && Fits(child', Key(child), level + 1)
    ensures Under(level, key, child', d)
  {
  }

  lemma FirstKey(node: Node)
    requires WellFormed(node) && node.Branch?
    ensures Agree(Key(node.children[0]), node.key, node.level)
  {
  }

  /**
   The subtree with one entry changed: every other entry and the place of the node stay as they
   were. Nothing is kept only of a leaf whose own entry goes.
   */
  method SetNode(node: Node, actor: Actor, count: Option<u64>) returns (kept: bool, r: Node)
    requires WellFormed(node)
    ensures !kept ==> count.None? && node.Leaf? && node.actor == actor
    ensures kept ==> WellFormed(r) && Updated(node, r, actor, count) && StaysPut(node, r, actor, count)
    decreases node
  {
    hide Nibble, Slot, SumLen, Agree;
    r := node;
    if node.Leaf? && node.actor == actor {
      if count.None? {
        return false, node;
      }
      return true, Leaf(actor, count.value);
    }
    WellFormedLevel(node);
    var difference := FirstDifference(Key(node), actor);
    if node.Leaf? || (difference.Some? && difference.value < node.level) {
      if count.Some? {
        r := Pair(difference.value, node, Leaf(actor, count.value));
        PairStays(node, actor, count.value, difference.value);
      } else {
        AgreeBefore(Key(node), actor, Level(node));
        AbsentOutside(node, actor);
      }
      return true, r;
    }
    AgreeBefore(Key(node), actor, node.level);
    AgreeSym(Key(node), actor, node.level);
    var d := Nibble(actor, node.level);
    r := SetInside(node, actor, count, d);
    kept := true;
  }

  lemma AbsentOutside(node: Node, actor: Actor)
    requires WellFormed(node) && !Agree(Key(node), actor, Level(node))
    ensures Entry(node, actor) == None
  {
    if Entry(node, actor).Some? {
      EntryUnder(node, actor);
      AgreeSym(actor, Key(node), Level(node));
    }
  }

  /** [SetNode] where `actor` shares the prefix of the branch `node`. */
  method SetInside(node: Node, actor: Actor, count: Option<u64>, d: nat) returns (r: Node)
    requires WellFormed(node) && node.Branch?
    requires Agree(actor, node.key, node.level) && d == Nibble(actor, node.level)
    ensures WellFormed(r) && Updated(node, r, actor, count) && StaysPut(node, r, actor, count)
    decreases node, 0
  {
    hide Nibble, Slot, SumLen, Agree, StaysPut, Updated;
    if !node.bitmap[d] {
      r := AddChild(node, actor, count, d);
      return;
    }
    var i := Slot(node.bitmap, d);
    ChildFits(node, d);
    var child := node.children[i];
    var kept, child' := SetNode(child, actor, count);
    if kept {
      ChildStays(node, child, child', d, actor, count);
      StaysUnder(node.level, node.key, child, child', d);
      var children := node.children[i := child'];
      FirstKey(node);
      ReplaceChild(node, d, child', Key(children[0]));
      r := MakeBranch(node.level, node.bitmap, Key(children[0]), children);
      ReplacedEntry(node, d, child, child', r, actor, count);
      BranchStays(node, r, actor, count);
    } else {
      r := DropChild(node, actor, d);
    }
  }

  /** No child stands at the actor's nibble: a new leaf joins there. */
  method AddChild(node: Node, actor: Actor, count: Option<u64>, d: nat) returns (r: Node)
    requires WellFormed(node) && node.Branch?
    requires Agree(actor, node.key, node.level) && d == Nibble(actor, node.level) && !node.bitmap[d]
    ensures WellFormed(r) && Updated(node, r, actor, count) && StaysPut(node, r, actor, count)
  {
    hide Nibble, Slot, SumLen, Agree, StaysPut, Updated;
    var i := Slot(node.bitmap, d);
    FirstKey(node);
    if count.None? {
      r := MakeBranch(node.level, node.bitmap, Key(node.children[0]), node.children);
      Rekey(node.level, node.bitmap, node.key, Key(node.children[0]), node.children);
      Assemble(node.level, node.bitmap, Key(node.children[0]), node.children);
      RekeyedEntries(node, r, actor, d);
    } else {
      var leaf := Leaf(actor, count.value);
      SlotMonotone(node.bitmap, d, 16);
      var children := node.children[..i] + [leaf] + node.children[i..];
      assert Agree(Key(children[0]), node.key, node.level);
      InsertChild(node, d, leaf, Key(children[0]));
      r := Inserted(node, d, leaf, Key(children[0]));
      InsertedEntry(node, d, r, actor, count.value);
    }
    BranchStays(node, r, actor, count);
  }

  /** The leaf at the actor's nibble goes; a branch left with one child gives way to it. */
  method DropChild(node: Node, actor: Actor, d: nat) returns (r: Node)
    requires WellFormed(node) && node.Branch? && d == Nibble(actor, node.level) && node.bitmap[d]
    requires Slot(node.bitmap, d) < |node.children|
    requires node.children[Slot(node.bitmap, d)].Leaf? && node.children[Slot(node.bitmap, d)].actor == actor
    ensures WellFormed(r) && Updated(node, r, actor, None) && StaysPut(node, r, actor, None)
  {
    hide Nibble, Slot, SumLen, Agree, StaysPut, Updated;
    var i := Slot(node.bitmap, d);
    if |node.children| == 2 {
      OnlyChild(node, d);
      r := node.children[1 - i];
      WellFormedLevel(r);
    } else {
      var children := node.children[..i] + node.children[i + 1..];
      var k := if i == 0 then 1 else 0;
      assert children[0] == node.children[k];
      assert Placed(node.level, node.bitmap, node.key, node.children[k], k);
      RemoveChild(node, d, Key(children[0]));
      r := Removed(node, d, Key(children[0]));
    }
    GoneEntry(node, d, r, actor);
    BranchStays(node, r, actor, None);
  }

  lemma ChildStays(node: Node, child: Node, child': Node, d: nat, actor: Actor, count: Option<u64>)
    requires node.Branch? && Under(node.level, node.key, child, d) && Fits(child, Key(child), node.level + 1)
    requires Agree(actor, node.key, node.level) && Nibble(actor, node.level) == d
    requires StaysPut(child, child', actor, count)
    ensures Fits(child', Key(child), node.level + 1)
  {
  }

  lemma RekeyedEntries(node: Node, r: Node, actor: Actor, d: nat)
    requires WellFormed(node) && node.Branch? && d == Nibble(actor, node.level) && !node.bitmap[d]
    requires WellFormed(r) && r == MakeBranch(node.level, node.bitmap, Key(node.children[0]), node.children)
    ensures Updated(node, r, actor, None)
  {
  }

  // ---- merging ----

  /** The higher of two entries, an absent one counting as none. */
  function Higher(a: Option<u64>, b: Option<u64>): Option<u64> {
    if a.None? then b else if b.None? then a else Some(Max(a.value, b.value))
  }

  ghost predicate Merged(a: Node, b: Node, r: Node)
    requires WellFormed(a) && WellFormed(b) && WellFormed(r)
  {
    forall x :: Entry(r, x) == Higher(Entry(a, x), Entry(b, x))
  }

  /** `r` lies wherever both `a` and `b` lie. */
  ghost predicate StaysBetween(a: Node, b: Node, r: Node) {
    forall key, level :: Fits(a, key, level) && Fits(b, key, level) ==> Fits(r, key, level)
  }

  /** The entry of `actor`, descending one nibble at a time. */
  method Lookup(node: Node, actor: Actor) returns (r: Option<u64>)
    requires WellFormed(node)
    ensures r == Entry(node, actor)
  {
    var at := node;
    while at.Branch?
      invariant WellFormed(at) && Entry(at, actor) == Entry(node, actor)
      decreases at
    {
      var d := Nibble(actor, at.level);
      if !at.bitmap[d] {
        return None;
      }
      ChildDigit(at, d);
      at := at.children[Slot(at.bitmap, d)];
    }
    r := if at.actor == actor then Some(at.count) else None;
  }

  /** The merge with a single entry, by one descent. */
  method Observed(node: Node, actor: Actor, count: u64) returns (r: Node)
    requires WellFormed(node)
    ensures WellFormed(r) && Merged(node, Leaf(actor, count), r) && StaysBetween(node, Leaf(actor, count), r)
  {
    hide Nibble, Slot, SumLen, Agree;
    var held := Lookup(node, actor);
    if held.Some? && held.value >= count {
      return node;
    }
    var kept, changed := SetNode(node, actor, Some(count));
    r := changed;
  }

  lemma MergedFlips(a: Node, b: Node, r: Node)
    requires WellFormed(a) && WellFormed(b) && WellFormed(r) && Merged(a, b, r) && StaysBetween(a, b, r)
    ensures Merged(b, a, r) && StaysBetween(b, a, r)
  {
  }

  /** The pointwise maximum of the two maps, as one well-formed trie. */
  method Union(a: Node, b: Node) returns (r: Node)
    requires WellFormed(a) && WellFormed(b)
    ensures WellFormed(r) && Merged(a, b, r) && StaysBetween(a, b, r)
    decreases 2 * LEVELS - Level(a) - Level(b), 2
  {
    hide Nibble, Slot, SumLen, Agree, WellFormed;
    WellFormedLevel(a);
    WellFormedLevel(b);
    // Two names of one allocation hold the same value; equal values may be two allocations.
    var shared: bool := *;
    if shared && a == b {
      return a;
    }
    if b.Leaf? {
      r := Observed(a, b.actor, b.count);
      return;
    }
    if a.Leaf? {
      r := Observed(b, a.actor, a.count);
      MergedFlips(b, a, r);
      return;
    }
    var lowest := if a.level < b.level then a.level else b.level;
    var difference := FirstDifference(a.key, b.key);
    if difference.Some? && difference.value < lowest {
      r := Pair(difference.value, a, b);
      PairMerges(difference.value, a, b);
      return;
    }
    AgreeBefore(a.key, b.key, lowest);
    if a.level == b.level {
      r := UnionChildren(a, b);
    } else if a.level < b.level {
      r := UnionBelow(a, b);
    } else {
      AgreeSym(a.key, b.key, lowest);
      r := UnionBelow(b, a);
      MergedFlips(b, a, r);
    }
  }

  lemma PairMerges(level: nat, a: Node, b: Node)
    requires WellFormed(a) && WellFormed(b) && level < Level(a) && level < Level(b) && level < LEVELS
    requires FirstDifference(Key(a), Key(b)) == Some(level)
    ensures WellFormed(Pair(level, a, b))
    ensures Merged(a, b, Pair(level, a, b)) && StaysBetween(a, b, Pair(level, a, b))
  {
    hide Nibble, Slot;
    PairIsUnion(level, a, b);
    forall key, l | Fits(a, key, l) && Fits(b, key, l)
      ensures Fits(Pair(level, a, b), key, l)
    {
      AgreeSym(Key(b), key, l);
      AgreeTrans(Key(a), key, Key(b), l);
      AgreeBefore(Key(a), Key(b), l);
    }
  }

  /** [Union] of a branch with a node further down its prefix. */
  method UnionBelow(upper: Node, lower: Node) returns (r: Node)
    requires WellFormed(upper) && WellFormed(lower) && upper.Branch? && lower.Branch?
    requires upper.level < lower.level && Agree(upper.key, lower.key, upper.level)
    ensures WellFormed(r) && Merged(upper, lower, r) && StaysBetween(upper, lower, r)
    decreases 2 * LEVELS - Level(upper) - Level(lower), 1
  {
    hide Nibble, Slot, SumLen, Agree, Merged, StaysBetween;
    var d := Nibble(lower.key, upper.level);
    var i := Slot(upper.bitmap, d);
    AgreeSym(upper.key, lower.key, upper.level);
    AgreeSelf(upper.key, upper.level);
    WellFormedLevel(lower);
    if !upper.bitmap[d] {
      InsertChild(upper, d, lower, upper.key);
      r := Inserted(upper, d, lower, upper.key);
      assert Merged(upper, lower, r) by { InsertMerges(upper, lower, d, r); }
    } else {
      ChildFits(upper, d);
      var child := upper.children[i];
      var child' := Union(child, lower);
      var shared: bool := *;
      if shared && child' == child {
        r := upper;
        assert Merged(upper, lower, r) by { UnchangedMerges(upper, lower, d, child); }
      } else {
        assert Fits(child', Key(child), upper.level + 1) by { LowerFits(upper, lower, d, child, child'); }
        StaysUnder(upper.level, upper.key, child, child', d);
        ReplaceChild(upper, d, child', upper.key);
        r := MakeBranch(upper.level, upper.bitmap, upper.key, upper.children[i := child']);
        assert Merged(upper, lower, r) by { ReplaceMerges(upper, lower, d, child, child', r); }
      }
    }
    assert StaysBetween(upper, lower, r) by { SameKeyStays(upper, lower, r); }
  }

  lemma SameKeyStays(a: Node, b: Node, r: Node)
    requires Level(r) == Level(a) && Key(r) == Key(a)
    ensures StaysBetween(a, b, r)
  {
  }

  lemma LowerFits(upper: Node, lower: Node, d: nat, child: Node, child': Node)
    requires upper.Branch? && lower.Branch? && upper.level < lower.level <= LEVELS
    requires Agree(lower.key, upper.key, upper.level) && Nibble(lower.key, upper.level) == d
    requires Under(upper.level, upper.key, child, d) && Fits(child, Key(child), upper.level + 1)
    requires StaysBetween(child, lower, child')
    ensures Fits(child', Key(child), upper.level + 1)
  {
  }

  /** Entries of a node further down are all at one nibble of the branch. */
  lemma LowerEntry(upper: Node, lower: Node, d: nat, x: Actor)
    requires WellFormed(lower) && upper.Branch? && lower.Branch? && upper.level < lower.level
    requires Nibble(lower.key, upper.level) == d && Entry(lower, x).Some?
    ensures Nibble(x, upper.level) == d
  {
    EntryUnder(lower, x);
    AgreeLess(x, lower.key, upper.level, lower.level);
  }

  lemma InsertMerges(upper: Node, lower: Node, d: nat, r: Node)
    requires WellFormed(upper) && WellFormed(lower) && WellFormed(r) && upper.Branch? && lower.Branch?
    requires upper.level < lower.level && Nibble(lower.key, upper.level) == d && !upper.bitmap[d]
    requires forall x :: Entry(r, x) == if Nibble(x, upper.level) == d then Entry(lower, x) else Entry(upper, x)
    ensures Merged(upper, lower, r)
  {
    hide Nibble, Slot;
    forall x: Actor
      ensures Entry(r, x) == Higher(Entry(upper, x), Entry(lower, x))
    {
      if Entry(lower, x).Some? {
        LowerEntry(upper, lower, d, x);
      }
    }
  }

  lemma ReplaceMerges(upper: Node, lower: Node, d: nat, child: Node, child': Node, r: Node)
    requires WellFormed(upper) && WellFormed(lower) && WellFormed(r) && upper.Branch? && lower.Branch?
    requires upper.level < lower.level && d == Nibble(lower.key, upper.level) && upper.bitmap[d]
    requires Slot(upper.bitmap, d) < |upper.children| && child == upper.children[Slot(upper.bitmap, d)]
    requires WellFormed(child) && WellFormed(child') && Merged(child, lower, child')
    requires forall x :: Entry(r, x) == if Nibble(x, upper.level) == d then Entry(child', x) else Entry(upper, x)
    ensures Merged(upper, lower, r)
  {
    hide Nibble, Slot, Placed;
    forall x: Actor
      ensures Entry(r, x) == Higher(Entry(upper, x), Entry(lower, x))
    {
      assert Entry(r, x) == if Nibble(x, upper.level) == d then Entry(child', x) else Entry(upper, x);
      MergedEntry(upper, lower, d, child, child', x);
    }
  }

  lemma MergedEntry(upper: Node, lower: Node, d: nat, child: Node, child': Node, x: Actor)
    requires WellFormed(upper) && WellFormed(lower) && upper.Branch? && lower.Branch?
    requires upper.level < lower.level && d == Nibble(lower.key, upper.level) && upper.bitmap[d]
    requires Slot(upper.bitmap, d) < |upper.children| && child == upper.children[Slot(upper.bitmap, d)]
    requires WellFormed(child) && WellFormed(child') && Entry(child', x) == Higher(Entry(child, x), Entry(lower, x))
    ensures Higher(Entry(upper, x), Entry(lower, x)) ==
      if Nibble(x, upper.level) == d then Entry(child', x) else Entry(upper, x)
  {
    hide Nibble, Slot, Placed, Entry, WellFormed;
    WellFormedLevel(upper);
    if Nibble(x, upper.level) == d {
      ChildDigit(upper, d);
      EntryOfChild(upper, Slot(upper.bitmap, d), x);
    } else if Entry(lower, x).Some? {
      LowerEntry(upper, lower, d, x);
    }
  }

  lemma UnchangedMerges(upper: Node, lower: Node, d: nat, child: Node)
    requires WellFormed(upper) && WellFormed(lower) && upper.Branch? && lower.Branch?
    requires upper.level < lower.level && d == Nibble(lower.key, upper.level) && upper.bitmap[d]
    requires Slot(upper.bitmap, d) < |upper.children| && child == upper.children[Slot(upper.bitmap, d)]
    requires WellFormed(child) && Merged(child, lower, child)
    ensures Merged(upper, lower, upper)
  {
    hide Nibble, Slot;
    forall x: Actor
      ensures Entry(upper, x) == Higher(Entry(upper, x), Entry(lower, x))
    {
      if Entry(lower, x).Some? {
        LowerEntry(upper, lower, d, x);
      }
    }
  }

  function FirstOrBits(x: Bitmap, y: Bitmap, n: nat): (r: seq<bool>)
    requires n <= 16
    ensures |r| == n && forall i :: 0 <= i < n ==> r[i] == (x[i] || y[i])
  {
    if n == 0 then [] else FirstOrBits(x, y, n - 1) + [x[n - 1] || y[n - 1]]
  }

  /** The bitwise or of two bitmaps. */
  function OrBits(x: Bitmap, y: Bitmap): (r: Bitmap)
    ensures forall i :: 0 <= i < 16 ==> r[i] == (x[i] || y[i])
  {
    FirstOrBits(x, y, 16)
  }

  /** `child` holds what two branches at one level hold at nibble `d`. */
  ghost predicate MergedAt(a: Node, b: Node, d: nat, child: Node)
    requires WellFormed(a) && WellFormed(b) && WellFormed(child) && a.Branch? && a.level < LEVELS
  {
    forall x :: Nibble(x, a.level) == d ==> Entry(child, x) == Higher(Entry(a, x), Entry(b, x))
  }

  /** The branches `a` and `b` meet at one level under one prefix. */
  ghost predicate Meet(a: Node, b: Node) {
    && WellFormed(a) && WellFormed(b) && a.Branch? && b.Branch?
    && a.level == b.level && Agree(a.key, b.key, a.level)
  }

  /** The children for the digits below `digit` are in place. */
  ghost predicate MergedBelow(a: Node, b: Node, bitmap: Bitmap, digit: nat, children: seq<Node>)
    requires Meet(a, b) && digit <= 16
  {
    && |children| == Slot(bitmap, digit)
    && (forall j :: 0 <= j < |children| ==> WellFormed(children[j]))
    && (forall j :: 0 <= j < |children| ==> Placed(a.level, bitmap, a.key, children[j], j))
    && (forall e :: 0 <= e < digit && bitmap[e] ==>
          Slot(bitmap, e) < |children| && MergedAt(a, b, e, children[Slot(bitmap, e)]))
  }

  lemma MergedBelowStep(a: Node, b: Node, bitmap: Bitmap, digit: nat, children: seq<Node>, child: Node)
    requires Meet(a, b) && digit < 16 && MergedBelow(a, b, bitmap, digit, children) && bitmap[digit]
    requires WellFormed(child) && Under(a.level, a.key, child, digit) && MergedAt(a, b, digit, child)
    ensures MergedBelow(a, b, bitmap, digit + 1, children + [child])
  {
    hide Nibble, Agree, MergedAt, WellFormed;
    var more := children + [child];
    forall e | 0 <= e <= digit && bitmap[e]
      ensures Slot(bitmap, e) < |more| && MergedAt(a, b, e, more[Slot(bitmap, e)])
    {
      if e < digit {
        assert more[Slot(bitmap, e)] == children[Slot(bitmap, e)];
      }
    }
  }

  /** The merged child at `digit`, from whichever branches have one. */
  method MergedChild(a: Node, b: Node, digit: nat) returns (child: Node)
    requires Meet(a, b) && digit < 16 && (a.bitmap[digit] || b.bitmap[digit])
    ensures WellFormed(child) && Under(a.level, a.key, child, digit) && MergedAt(a, b, digit, child)
    decreases 2 * LEVELS - Level(a) - Level(b), 0
  {
    hide Nibble, Slot, Agree, SumLen;
    AgreeSym(a.key, b.key, a.level);
    if a.bitmap[digit] {
      ChildFits(a, digit);
    }
    if b.bitmap[digit] {
      ChildFits(b, digit);
      AgreeTrans(Key(b.children[Slot(b.bitmap, digit)]), b.key, a.key, a.level);
    }
    if a.bitmap[digit] && b.bitmap[digit] {
      var x, y := a.children[Slot(a.bitmap, digit)], b.children[Slot(b.bitmap, digit)];
      child := Union(x, y);
      assert Fits(y, Key(x), a.level + 1) by { SlotsMeet(a.level, a.key, x, y, digit); }
      assert Fits(child, Key(x), a.level + 1);
      StaysUnder(a.level, a.key, x, child, digit);
    } else if a.bitmap[digit] {
      child := a.children[Slot(a.bitmap, digit)];
    } else {
      child := b.children[Slot(b.bitmap, digit)];
    }
  }

  lemma SlotsMeet(level: nat, key: Actor, x: Node, y: Node, d: nat)
    requires Under(level, key, x, d) && Under(level, key, y, d)
    ensures Fits(y, Key(x), level + 1)
  {
  }

  lemma SameChildren(a: Node, r: Node)
    requires WellFormed(a) && WellFormed(r) && a.Branch? && r.Branch?
    requires a.level == r.level && a.bitmap == r.bitmap && a.children == r.children
    ensures forall x :: Entry(a, x) == Entry(r, x)
  {
  }

  lemma MergedAll(a: Node, b: Node, bitmap: Bitmap, children: seq<Node>)
    requires Meet(a, b) && bitmap == OrBits(a.bitmap, b.bitmap) && MergedBelow(a, b, bitmap, 16, children)
    ensures WellFormed(MakeBranch(a.level, bitmap, a.key, children))
    ensures Merged(a, b, MakeBranch(a.level, bitmap, a.key, children))
  {
    hide Nibble, Agree, SumLen, Slot;
    TwoSlots(a, bitmap);
    Assemble(a.level, bitmap, a.key, children);
    var r := MakeBranch(a.level, bitmap, a.key, children);
    forall x: Actor
      ensures Entry(r, x) == Higher(Entry(a, x), Entry(b, x))
    {
      var d := Nibble(x, a.level);
      if bitmap[d] {
        assert MergedAt(a, b, d, children[Slot(bitmap, d)]);
      }
    }
  }

  /** More bits set means at least as many slots. */
  lemma {:induction false} MoreSlots(x: Bitmap, y: Bitmap, d: nat)
    requires d <= 16 && forall i :: 0 <= i < 16 && x[i] ==> y[i]
    ensures Slot(x, d) <= Slot(y, d)
  {
    if d > 0 {
      MoreSlots(x, y, d - 1);
    }
  }

  lemma TwoSlots(a: Node, bitmap: Bitmap)
    requires WellFormed(a) && a.Branch? && forall i :: 0 <= i < 16 && a.bitmap[i] ==> bitmap[i]
    ensures 2 <= Slot(bitmap, 16)
  {
    MoreSlots(a.bitmap, bitmap, 16);
  }

  /** Merges two branches that meet at one level, digit by digit. */
  method UnionChildren(a: Node, b: Node) returns (r: Node)
    requires Meet(a, b)
    ensures WellFormed(r) && Merged(a, b, r) && StaysBetween(a, b, r)
    decreases 2 * LEVELS - Level(a) - Level(b), 1
  {
    hide Nibble, Agree, SumLen, MergedBelow, WellFormed, Placed, Merged, StaysBetween;
    var bitmap := OrBits(a.bitmap, b.bitmap);
    var children: seq<Node> := [];
    assert MergedBelow(a, b, bitmap, 0, children) by { NothingMerged(a, b, bitmap); }
    for digit := 0 to 16
      invariant MergedBelow(a, b, bitmap, digit, children)
    {
      if bitmap[digit] {
        var child := MergedChild(a, b, digit);
        MergedBelowStep(a, b, bitmap, digit, children, child);
        children := children + [child];
      } else {
        SkippedDigit(a, b, bitmap, digit, children);
      }
    }
    MergedAll(a, b, bitmap, children);
    r := MakeBranch(a.level, bitmap, a.key, children);
    var shared: bool := *;
    if shared && a.bitmap == bitmap && a.children == children {
      MergedSame(a, b, r, a);
      r := a;
    } else if shared && b.bitmap == bitmap && b.children == children {
      MergedSame(a, b, r, b);
      r := b;
    }
    assert StaysBetween(a, b, r) by { EitherKeyStays(a, b, r); }
  }

  lemma MergedSame(a: Node, b: Node, r: Node, same: Node)
    requires WellFormed(a) && WellFormed(b) && WellFormed(r) && WellFormed(same) && Merged(a, b, r)
    requires r.Branch? && same.Branch?
    requires same.level == r.level && same.bitmap == r.bitmap && same.children == r.children
    ensures Merged(a, b, same)
  {
    SameChildren(same, r);
  }

  lemma EitherKeyStays(a: Node, b: Node, r: Node)
    requires Level(a) == Level(b) == Level(r) && (Key(r) == Key(a) || Key(r) == Key(b))
    ensures StaysBetween(a, b, r)
  {
  }

  lemma NothingMerged(a: Node, b: Node, bitmap: Bitmap)
    requires Meet(a, b)
    ensures MergedBelow(a, b, bitmap, 0, [])
  {
  }

  lemma SkippedDigit(a: Node, b: Node, bitmap: Bitmap, digit: nat, children: seq<Node>)
    requires Meet(a, b) && digit < 16 && !bitmap[digit] && MergedBelow(a, b, bitmap, digit, children)
    ensures MergedBelow(a, b, bitmap, digit + 1, children)
  {
  }
}
