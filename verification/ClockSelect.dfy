/** Restricting a clock trie to some actors, sharing every subtree that stays whole. */
module ClockSelect {
  import opened Prelude
  import opened ActorBits
  import opened ClockTrie
  import opened ClockShape
  import opened ClockOps

  /** The nibbles of `children` at `level`, as a bitmap. */
  function BitsOf(level: nat, children: seq<Node>): Bitmap
    requires level < LEVELS
  {
    if children == [] then NO_BITS
    else BitsOf(level, children[..|children| - 1])[Nibble(Key(children[|children| - 1]), level) := true]
  }

  /** `children` stand under one prefix with ascending nibbles below `bound`. */
  ghost predicate Row(level: nat, key: Actor, children: seq<Node>, bound: nat) {
    && level < LEVELS && bound <= 16
    && |children| == Slot(BitsOf(level, children), 16)
    && (forall j :: 0 <= j < |children| ==> WellFormed(children[j]))
    && (forall j :: 0 <= j < |children| ==> Placed(level, BitsOf(level, children), key, children[j], j))
    && (forall d :: bound <= d < 16 ==> !BitsOf(level, children)[d])
  }

  /** What a branch over `children` answers. */
  ghost function Look(level: nat, children: seq<Node>, x: Actor): Option<u64>
    requires level < LEVELS && forall j :: 0 <= j < |children| ==> WellFormed(children[j])
  {
    var bits := BitsOf(level, children);
    var d := Nibble(x, level);
    if bits[d] && Slot(bits, d) < |children| then Entry(children[Slot(bits, d)], x) else None
  }

  /** Without bits at or above `d`, every slot lies below `d`. */
  lemma {:induction false} SlotsEnd(bits: Bitmap, d: nat, e: nat)
    requires d <= e <= 16 && forall i :: d <= i < 16 ==> !bits[i]
    ensures Slot(bits, e) == Slot(bits, d)
    decreases e
  {
    if d < e {
      SlotsEnd(bits, d, e - 1);
    }
  }

  lemma RowAppend(level: nat, key: Actor, children: seq<Node>, bound: nat, child: Node, d: nat)
    requires Row(level, key, children, bound) && bound <= d < 16
    requires WellFormed(child) && Under(level, key, child, d)
    ensures Row(level, key, children + [child], d + 1)
    ensures forall x ::
      Look(level, children + [child], x)
        == (if Nibble(x, level) == d then Entry(child, x) else Look(level, children, x))
  {
    hide Nibble, Agree, Look, Entry, BitsOf, Placed, WellFormed;
    RowMore(level, key, children, bound, child, d);
    forall x: Actor
      ensures Look(level, children + [child], x)
        == if Nibble(x, level) == d then Entry(child, x) else Look(level, children, x)
    {
      LookAppend(level, key, children, bound, child, d, x);
    }
  }

  lemma RowMore(level: nat, key: Actor, children: seq<Node>, bound: nat, child: Node, d: nat)
    requires Row(level, key, children, bound) && bound <= d < 16
    requires WellFormed(child) && Under(level, key, child, d)
    ensures Row(level, key, children + [child], d + 1)
  {
    hide Nibble, Slot, Agree, WellFormed;
    var more := children + [child];
    assert more[..|more| - 1] == children;
    var (bits, bits') := (BitsOf(level, children), BitsOf(level, more));
    assert bits' == bits[d := true] && !bits[d];
    SlotSet(bits, d, 16);
    SlotSet(bits, d, d);
    SlotsEnd(bits, d, 16);
    forall j | 0 <= j < |more|
      ensures Placed(level, bits', key, more[j], j)
    {
      if j < |children| {
        assert Placed(level, bits, key, children[j], j);
        SlotSet(bits, d, Nibble(Key(children[j]), level));
      }
    }
  }

  lemma LookAppend(level: nat, key: Actor, children: seq<Node>, bound: nat, child: Node, d: nat, x: Actor)
    requires Row(level, key, children, bound) && bound <= d < 16
    requires WellFormed(child) && Nibble(Key(child), level) == d
    ensures Look(level, children + [child], x) ==
      if Nibble(x, level) == d then Entry(child, x) else Look(level, children, x)
  {
    hide Nibble, Slot, Placed;
    var more := children + [child];
    assert more[..|more| - 1] == children;
    var bits := BitsOf(level, children);
    var e := Nibble(x, level);
    assert !bits[d];
    SlotSet(bits, d, e);
    SlotSet(bits, d, d);
    SlotsEnd(bits, d, 16);
    if bits[e] {
      SlotOrder(bits, e, e);
    }
  }

  lemma NoRow(level: nat, key: Actor)
    requires level < LEVELS
    ensures Row(level, key, [], 0)
    ensures forall x :: Look(level, [], x) == None
  {
    NoSlots(16);
  }

  /** `r` keeps exactly the entries of `actors`; `None` means none are left. */
  ghost predicate Restricted(node: Node, actors: set<Actor>, r: Option<Node>)
    requires WellFormed(node) && (r.Some? ==> WellFormed(r.value))
  {
    forall x :: (if r.Some? then Entry(r.value, x) else None) == if x in actors then Entry(node, x) else None
  }

  /** The first `n` children of a branch restricted into `out`. */
  ghost predicate RestrictedFirst(node: Node, actors: set<Actor>, n: nat, out: seq<Node>, whole: bool)
    requires WellFormed(node) && node.Branch? && n <= |node.children|
  {
    var bound := if n < |node.children| then Nibble(Key(node.children[n]), node.level) else 16;
    && Row(node.level, node.key, out, bound)
    && (forall x :: Look(node.level, out, x) ==
          if x in actors && Slot(node.bitmap, Nibble(x, node.level)) < n then Entry(node, x) else None)
    && (whole ==> forall x :: Slot(node.bitmap, Nibble(x, node.level)) < n && Entry(node, x).Some? ==> x in actors)
  }

  /** Nothing that lies above `node` lies above what is left of it. */
  ghost predicate Sinks(node: Node, r: Node) {
    forall key, level :: Fits(node, key, level) ==> Fits(r, key, level)
  }

  lemma RowWider(level: nat, key: Actor, children: seq<Node>, bound: nat, wider: nat)
    requires Row(level, key, children, bound) && bound <= wider <= 16
    ensures Row(level, key, children, wider)
  {
  }

  /** The nibble of child `n`, and that the next child's nibble is greater. */
  lemma NextDigit(node: Node, n: nat)
    requires WellFormed(node) && node.Branch? && n < |node.children|
    ensures Under(node.level, node.key, node.children[n], Nibble(Key(node.children[n]), node.level))
    ensures Slot(node.bitmap, Nibble(Key(node.children[n]), node.level)) == n
    ensures node.bitmap[Nibble(Key(node.children[n]), node.level)]
    ensures n + 1 < |node.children| ==>
      Nibble(Key(node.children[n]), node.level) < Nibble(Key(node.children[n + 1]), node.level)
  {
    hide Nibble, Slot, Agree;
    assert Placed(node.level, node.bitmap, node.key, node.children[n], n);
    if n + 1 < |node.children| {
      assert Placed(node.level, node.bitmap, node.key, node.children[n + 1], n + 1);
      SlotOrder(node.bitmap, Nibble(Key(node.children[n]), node.level), Nibble(Key(node.children[n + 1]), node.level));
    }
  }

  /** Which entries the first `n + 1` children hold: those of the first `n`, and those at nibble `d`. */
  lemma OneMore(node: Node, n: nat, x: Actor)
    requires WellFormed(node) && node.Branch? && n < |node.children| && WellFormed(node.children[n])
    ensures
      var d := Nibble(Key(node.children[n]), node.level);
      var e := Nibble(x, node.level);
      && (e == d ==> Slot(node.bitmap, e) == n && Entry(node, x) == Entry(node.children[n], x))
      && (e != d && Slot(node.bitmap, e) == n ==> Entry(node, x).None?)
  {
    hide Nibble, Slot, Agree;
    NextDigit(node, n);
    var d := Nibble(Key(node.children[n]), node.level);
    var e := Nibble(x, node.level);
    if node.bitmap[e] {
      SlotOrder(node.bitmap, d, e);
    }
  }

  /** What the row answers once child `n` was restricted into it. */
  lemma RestrictLook(node: Node, actors: set<Actor>, n: nat, out: seq<Node>, whole: bool,
                     selected: Option<Node>, out': seq<Node>, x: Actor)
    requires WellFormed(node) && node.Branch? && n < |node.children| && WellFormed(node.children[n])
    requires RestrictedFirst(node, actors, n, out, whole)
    requires selected.Some? ==> WellFormed(selected.value)
    requires Restricted(node.children[n], actors, selected)
    requires forall j :: 0 <= j < |out'| ==> WellFormed(out'[j])
    requires
      var d := Nibble(Key(node.children[n]), node.level);
      Look(node.level, out', x) ==
        if selected.Some? && Nibble(x, node.level) == d then Entry(selected.value, x) else Look(node.level, out, x)
    ensures Look(node.level, out', x) ==
      if x in actors && Slot(node.bitmap, Nibble(x, node.level)) < n + 1 then Entry(node, x) else None
    ensures (whole && selected == Some(node.children[n]) && Slot(node.bitmap, Nibble(x, node.level)) < n + 1
             && Entry(node, x).Some?) ==> x in actors
  {
    hide Nibble, Slot, Agree, Row, Look;
    OneMore(node, n, x);
  }

  lemma RestrictStep(node: Node, actors: set<Actor>, n: nat, out: seq<Node>, whole: bool, selected: Option<Node>)
    requires WellFormed(node) && node.Branch? && n < |node.children| && WellFormed(node.children[n])
    requires RestrictedFirst(node, actors, n, out, whole)
    requires selected.Some? ==> WellFormed(selected.value) && Sinks(node.children[n], selected.value)
    requires Restricted(node.children[n], actors, selected)
    ensures RestrictedFirst(node, actors, n + 1,
              if selected.Some? then out + [selected.value] else out,
              whole && selected == Some(node.children[n]))
  {
    hide Nibble, Slot, Agree, Look, Restricted, WellFormed, BitsOf;
    NextDigit(node, n);
    var (d, child) := (Nibble(Key(node.children[n]), node.level), node.children[n]);
    var wider := if n + 1 < |node.children| then Nibble(Key(node.children[n + 1]), node.level) else 16;
    var out' := out;
    if selected.Some? {
      out' := out + [selected.value];
      AgreeSelf(Key(child), node.level + 1);
      assert Fits(child, Key(child), node.level + 1);
      StaysUnder(node.level, node.key, child, selected.value, d);
      RowAppend(node.level, node.key, out, d, selected.value, d);
      RowWider(node.level, node.key, out', d + 1, wider);
    } else {
      RowWider(node.level, node.key, out, d, wider);
    }
    forall x: Actor
      ensures Look(node.level, out', x) ==
        if x in actors && Slot(node.bitmap, Nibble(x, node.level)) < n + 1 then Entry(node, x) else None
      ensures (whole && selected == Some(child) && Slot(node.bitmap, Nibble(x, node.level)) < n + 1
               && Entry(node, x).Some?) ==> x in actors
    {
      RestrictLook(node, actors, n, out, whole, selected, out', x);
    }
  }

  lemma RestrictStart(node: Node, actors: set<Actor>)
    requires WellFormed(node) && node.Branch?
    ensures RestrictedFirst(node, actors, 0, [], true)
  {
    NoRow(node.level, node.key);
    var bound := if 0 < |node.children| then Nibble(Key(node.children[0]), node.level) else 16;
    RowWider(node.level, node.key, [], 0, bound);
  }

  /** Every entry of a branch is below one of its children. */
  lemma SlotsCover(node: Node, actors: set<Actor>, out: seq<Node>, whole: bool, x: Actor)
    requires WellFormed(node) && node.Branch? && RestrictedFirst(node, actors, |node.children|, out, whole)
    ensures Row(node.level, node.key, out, 16)
    ensures Look(node.level, out, x) == if x in actors then Entry(node, x) else None
    ensures whole && Entry(node, x).Some? ==> x in actors
  {
    hide Nibble, Agree, Row, Look;
    var e := Nibble(x, node.level);
    if node.bitmap[e] {
      SlotMonotone(node.bitmap, e, 16);
    }
  }

  /** A row as a node of its own: nothing, the only child, or a branch. */
  function Collapse(level: nat, out: seq<Node>): Option<Node>
    requires level < LEVELS
  {
    if out == [] then None
    else if |out| == 1 then Some(out[0])
    else Some(MakeBranch(level, BitsOf(level, out), Key(out[0]), out))
  }

  lemma CollapseLooks(level: nat, key: Actor, out: seq<Node>)
    requires Row(level, key, out, 16)
    ensures Collapse(level, out).Some? ==>
      && WellFormed(Collapse(level, out).value)
      && level <= Level(Collapse(level, out).value) <= LEVELS
      && Agree(Key(Collapse(level, out).value), key, level)
    ensures forall x ::
      Look(level, out, x) == (if Collapse(level, out).Some? then Entry(Collapse(level, out).value, x) else None)
  {
    hide Nibble, Slot, Agree;
    if out != [] {
      assert Placed(level, BitsOf(level, out), key, out[0], 0);
      if |out| == 1 {
        assert out[..0] == [];
        OneSlot(level, out[0]);
        forall x: Actor
          ensures Look(level, out, x) == Entry(out[0], x)
        {
          if Entry(out[0], x).Some? {
            EntryUnder(out[0], x);
            NodeLevel(out[0]);
            AgreeLess(x, Key(out[0]), level, Level(out[0]));
          }
        }
      } else {
        Rekey(level, BitsOf(level, out), key, Key(out[0]), out);
        Assemble(level, BitsOf(level, out), Key(out[0]), out);
      }
    }
  }

  lemma OneSlot(level: nat, child: Node)
    requires level < LEVELS
    ensures BitsOf(level, [child]) == NO_BITS[Nibble(Key(child), level) := true]
    ensures Slot(BitsOf(level, [child]), Nibble(Key(child), level)) == 0
    ensures forall d :: 0 <= d < 16 && BitsOf(level, [child])[d] ==> d == Nibble(Key(child), level)
  {
    hide Nibble;
    assert [child][..0] == [];
    NoSlots(Nibble(Key(child), level));
    SlotSet(NO_BITS, Nibble(Key(child), level), Nibble(Key(child), level));
  }

  /** The part of `node` for `actors`; the node itself when nothing was left out. */
  method SelectedNode(node: Node, actors: set<Actor>) returns (r: Option<Node>)
    requires WellFormed(node)
    ensures r.Some? ==> WellFormed(r.value) && Sinks(node, r.value)
    ensures Restricted(node, actors, r)
    decreases node
  {
    hide Nibble, Slot, Agree, RestrictedFirst, Row, Look, SumLen, Sinks;
    if node.Leaf? {
      assert Sinks(node, node) by { SinksSelf(node); }
      r := if node.actor in actors then Some(node) else None;
      return;
    }
    var whole, out: seq<Node> := true, [];
    RestrictStart(node, actors);
    for n := 0 to |node.children|
      invariant RestrictedFirst(node, actors, n, out, whole)
    {
      var child := node.children[n];
      var selected := SelectedNode(child, actors);
      RestrictStep(node, actors, n, out, whole, selected);
      // Whether the selection is the child's own allocation.
      var shared: bool := *;
      if !(whole && shared && selected == Some(child)) {
        NotWhole(node, actors, n + 1, if selected.Some? then out + [selected.value] else out,
          whole && selected == Some(child));
        whole := false;
      }
      if selected.Some? {
        out := out + [selected.value];
      }
    }
    AllRestricted(node, actors, out, whole);
    if whole {
      assert Sinks(node, node) by { SinksSelf(node); }
      return Some(node);
    }
    CollapseLooks(node.level, node.key, out);
    r := Collapse(node.level, out);
    if r.Some? {
      SinksBranch(node, r.value);
    }
  }

  lemma AllRestricted(node: Node, actors: set<Actor>, out: seq<Node>, whole: bool)
    requires WellFormed(node) && node.Branch? && RestrictedFirst(node, actors, |node.children|, out, whole)
    ensures Row(node.level, node.key, out, 16)
    ensures forall x :: Look(node.level, out, x) == if x in actors then Entry(node, x) else None
    ensures whole ==> forall x :: Entry(node, x).Some? ==> x in actors
  {
    assert Row(node.level, node.key, out, 16);
    forall x: Actor
      ensures Look(node.level, out, x) == if x in actors then Entry(node, x) else None
      ensures whole && Entry(node, x).Some? ==> x in actors
    {
      SlotsCover(node, actors, out, whole, x);
    }
  }

  lemma NotWhole(node: Node, actors: set<Actor>, n: nat, out: seq<Node>, whole: bool)
    requires WellFormed(node) && node.Branch? && n <= |node.children|
    requires RestrictedFirst(node, actors, n, out, whole)
    ensures RestrictedFirst(node, actors, n, out, false)
  {
  }

  lemma SinksSelf(node: Node)
    ensures Sinks(node, node)
  {
  }

  lemma SinksBranch(node: Node, r: Node)
    requires WellFormed(node) && node.Branch? && node.level <= Level(r) <= LEVELS
    requires Agree(Key(r), node.key, node.level)
    ensures Sinks(node, r)
  {
  }
}
