/** The clock itself: a root it updates in place, denoting a plain map of positions. */
module ActorClock {
  import opened Prelude
  import opened ActorBits
  import opened ClockTrie
  import opened ClockShape
  import opened ClockIter
  import opened ClockOps
  import opened ClockSelect

  ghost predicate RootWellFormed(root: Option<Node>) {
    root.Some? ==> WellFormed(root.value)
  }

  /** The entry of `x`, none in an empty clock. */
  ghost function At(root: Option<Node>, x: Actor): Option<u64>
    requires RootWellFormed(root)
  {
    if root.Some? then Entry(root.value, x) else None
  }

  ghost function CountsOf(root: Option<Node>): Counts
    requires RootWellFormed(root)
  {
    if root.Some? then Entries(root.value) else map[]
  }

  ghost function Held(c: Counts, x: Actor): Option<u64> {
    if x in c then Some(c[x]) else None
  }

  lemma CountsAt(root: Option<Node>, x: Actor)
    requires RootWellFormed(root)
    ensures At(root, x) == Held(CountsOf(root), x)
  {
    if root.Some? {
      EntriesEntry(root.value, x);
    }
  }

  /** A trie that answers as the map does denotes the map. */
  lemma CountsAre(root: Option<Node>, c: Counts)
    requires RootWellFormed(root) && forall x :: At(root, x) == Held(c, x)
    ensures CountsOf(root) == c
  {
    var d := CountsOf(root);
    forall x | x in c || x in d
      ensures x in c && x in d && c[x] == d[x]
    {
      CountsAt(root, x);
    }
  }

  /** Zero where there is no entry. */
  function Count(held: Option<u64>): u64 {
    if held.Some? then held.value else 0
  }

  /** `c` with `actor` at `count`, or without it for `None`. */
  ghost function WithCount(c: Counts, actor: Actor, count: Option<u64>): Counts {
    if count.Some? then c[actor := count.value] else c - {actor}
  }

  /** Pointwise maximum on the union of the domains; zeros are entries too. */
  ghost function MaxOf(c: Counts, d: Counts): Counts {
    map x | x in c.Keys + d.Keys :: Higher(Held(c, x), Held(d, x)).value
  }

  /** Pointwise minimum on the common actors. */
  ghost function MinOf(c: Counts, d: Counts): Counts {
    map x | x in c.Keys * d.Keys :: Min(c[x], d[x])
  }

  ghost function Selection(c: Counts, actors: set<Actor>): Counts {
    map x | x in c && x in actors :: c[x]
  }

  ghost predicate Dominated(c: Counts, d: Counts) {
    forall x <- d :: d[x] <= Count(Held(c, x))
  }

  lemma PutAt(root: Option<Node>, r: Option<Node>, actor: Actor, count: Option<u64>)
    requires RootWellFormed(root) && RootWellFormed(r)
    requires forall x :: At(r, x) == if x == actor then count else At(root, x)
    ensures CountsOf(r) == WithCount(CountsOf(root), actor, count)
  {
    forall x: Actor
      ensures At(r, x) == Held(WithCount(CountsOf(root), actor, count), x)
    {
      CountsAt(root, x);
    }
    CountsAre(r, WithCount(CountsOf(root), actor, count));
  }

  lemma MergeAt(a: Option<Node>, b: Option<Node>, r: Option<Node>)
    requires RootWellFormed(a) && RootWellFormed(b) && RootWellFormed(r)
    requires forall x :: At(r, x) == Higher(At(a, x), At(b, x))
    ensures CountsOf(r) == MaxOf(CountsOf(a), CountsOf(b))
  {
    forall x: Actor
      ensures At(r, x) == Held(MaxOf(CountsOf(a), CountsOf(b)), x)
    {
      CountsAt(a, x);
      CountsAt(b, x);
    }
    CountsAre(r, MaxOf(CountsOf(a), CountsOf(b)));
  }

  lemma SelectAt(root: Option<Node>, r: Option<Node>, actors: set<Actor>)
    requires RootWellFormed(root) && RootWellFormed(r)
    requires forall x :: At(r, x) == if x in actors then At(root, x) else None
    ensures CountsOf(r) == Selection(CountsOf(root), actors)
  {
    forall x: Actor
      ensures At(r, x) == Held(Selection(CountsOf(root), actors), x)
    {
      CountsAt(root, x);
    }
    CountsAre(r, Selection(CountsOf(root), actors));
  }

  /** The entries a root yields, in order. */
  ghost function Items(root: Option<Node>): seq<Item> {
    if root.Some? then Flat(root.value) else []
  }

  /** The actors of the first `k` items. */
  ghost function Done(items: seq<Item>, k: nat): set<Actor>
    requires k <= |items|
  {
    set i | 0 <= i < k :: items[i].0
  }

  lemma ItemsAreCounts(root: Option<Node>)
    requires RootWellFormed(root)
    ensures Done(Items(root), |Items(root)|) == CountsOf(root).Keys
    ensures forall i :: 0 <= i < |Items(root)| ==> Held(CountsOf(root), Items(root)[i].0) == Some(Items(root)[i].1)
  {
    var items := Items(root);
    if root.Some? {
      FlatIsEntries(root.value);
      forall i | 0 <= i < |items|
        ensures Held(CountsOf(root), items[i].0) == Some(items[i].1)
      {
        CountsAt(root, items[i].0);
      }
      forall x | x in CountsOf(root)
        ensures x in Done(items, |items|)
      {
        CountsAt(root, x);
        var i :| 0 <= i < |items| && items[i].0 == x;
      }
    }
  }

  lemma DoneStep(items: seq<Item>, k: nat)
    requires k < |items|
    ensures Done(items, k + 1) == Done(items, k) + {items[k].0}
  {
  }

  method EntryAt(root: Option<Node>, actor: Actor) returns (r: Option<u64>)
    requires RootWellFormed(root)
    ensures r == At(root, actor) == Held(CountsOf(root), actor)
  {
    CountsAt(root, actor);
    if root.None? {
      return None;
    }
    r := Lookup(root.value, actor);
  }

  /** Whether two roots iterate alike. */
  method SameItems(a: Option<Node>, b: Option<Node>) returns (r: bool)
    requires RootWellFormed(a) && RootWellFormed(b)
    ensures r <==> Items(a) == Items(b)
  {
    hide WellFormed, Flat, Pending, Bounded;
    var own := new ClockCursor(a);
    var theirs := new ClockCursor(b);
    ghost var xs, ys := Items(a), Items(b);
    ghost var k := 0;
    while true
      invariant own.Valid() && theirs.Valid() && fresh(own) && fresh(theirs) && own != theirs
      invariant k <= |xs| && k <= |ys| && xs[..k] == ys[..k]
      invariant Pending(own.stack) == xs[k..] && Pending(theirs.stack) == ys[k..]
      decreases |xs| - k
    {
      var x := own.Next();
      var y := theirs.Next();
      if x != y {
        HeadsDiffer(xs, ys, k);
        return false;
      }
      if x.None? {
        assert xs == xs[..k] && ys == ys[..k];
        return true;
      }
      assert xs[k] == x.value && ys[k] == y.value;
      assert xs[k..][1..] == xs[k + 1..] && ys[k..][1..] == ys[k + 1..];
      k := k + 1;
    }
  }

  lemma HeadsDiffer(xs: seq<Item>, ys: seq<Item>, k: nat)
    requires k <= |xs| && k <= |ys|
    requires (k < |xs|) != (k < |ys|) || (k < |xs| && xs[k] != ys[k])
    ensures xs != ys
  {
  }

  function RootLen(root: Option<Node>): nat {
    if root.Some? then Len(root.value) else 0
  }

  /** The map under the root changes at one actor only. */
  method PutRoot(root: Option<Node>, actor: Actor, count: Option<u64>) returns (r: Option<Node>)
    requires RootWellFormed(root)
    ensures RootWellFormed(r) && CountsOf(r) == WithCount(CountsOf(root), actor, count)
  {
    hide WellFormed, Entries, Entry;
    var held := EntryAt(root, actor);
    if held == count {
      assert WithCount(CountsOf(root), actor, count) == CountsOf(root);
      return root;
    }
    if root.Some? {
      var kept, node := SetNode(root.value, actor, count);
      r := if kept then Some(node) else None;
      if !kept {
        LeafOnly(root.value, actor);
      }
    } else {
      r := if count.Some? then Some(Leaf(actor, count.value)) else None;
      if count.Some? {
        NewLeaf(actor, count.value);
      }
    }
    PutAt(root, r, actor, count);
  }

  /** The lower position of each common actor, from the entries of the shorter clock. */
  method IntersectRoots(a: Option<Node>, b: Option<Node>) returns (r: Option<Node>)
    requires RootWellFormed(a) && RootWellFormed(b)
    ensures RootWellFormed(r) && CountsOf(r) == MinOf(CountsOf(a), CountsOf(b))
  {
    hide WellFormed, Entries, Entry, Pending, Flat, MinOf, Selection, Done;
    var (small, large) := if RootLen(a) <= RootLen(b) then (a, b) else (b, a);
    r := None;
    var cursor := new ClockCursor(small);
    ghost var items := Items(small);
    ItemsAreCounts(small);
    NothingDone(small, large, items);
    ghost var k := 0;
    var more := true;
    while more
      invariant fresh(cursor) && cursor.Valid() && RootWellFormed(r)
      invariant k <= |items| && Pending(cursor.stack) == items[k..]
      invariant CountsOf(r) == MinOf(Selection(CountsOf(small), Done(items, k)), CountsOf(large))
      invariant !more ==> k == |items|
      decreases |items| - k, more
    {
      var item := cursor.Next();
      if item.None? {
        more := false;
      } else {
        assert item.value == items[k] && items[k..][1..] == items[k + 1..];
        var held := EntryAt(large, item.value.0);
        DoneStep(items, k);
        IntersectStep(CountsOf(small), CountsOf(large), Done(items, k), item.value);
        k := k + 1;
        if held.Some? {
          r := PutRoot(r, item.value.0, Some(Min(item.value.1, held.value)));
        }
      }
    }
    AllDone(small, items);
    MinCommutes(CountsOf(small), CountsOf(large));
  }

  lemma NothingDone(small: Option<Node>, large: Option<Node>, items: seq<Item>)
    requires RootWellFormed(small) && RootWellFormed(large)
    ensures CountsOf(None) == MinOf(Selection(CountsOf(small), Done(items, 0)), CountsOf(large)) && items[0..] == items
  {
  }

  lemma AllDone(small: Option<Node>, items: seq<Item>)
    requires RootWellFormed(small) && Done(items, |items|) == CountsOf(small).Keys
    ensures Selection(CountsOf(small), Done(items, |items|)) == CountsOf(small)
  {
  }

  lemma MinCommutes(c: Counts, d: Counts)
    ensures MinOf(c, d) == MinOf(d, c)
  {
  }

  /** The entries of `actors`: few of them are looked up, many filter the trie. */
  method SelectRoot(root: Option<Node>, actors: set<Actor>) returns (r: Option<Node>)
    requires RootWellFormed(root)
    ensures RootWellFormed(r) && CountsOf(r) == Selection(CountsOf(root), actors)
  {
    hide WellFormed, Entries, Entry;
    r := None;
    if |actors| * 2 >= RootLen(root) {
      if root.Some? {
        r := SelectedNode(root.value, actors);
        RestrictedAt(root, r, actors);
      }
      SelectAt(root, r, actors);
      return;
    }
    var todo := actors;
    while todo != {}
      invariant RootWellFormed(r) && todo <= actors
      invariant CountsOf(r) == Selection(CountsOf(root), actors - todo)
      decreases todo
    {
      var actor :| actor in todo;
      var held := EntryAt(root, actor);
      assert actors - (todo - {actor}) == actors - todo + {actor};
      if held.Some? {
        r := PutRoot(r, actor, held);
      }
      todo := todo - {actor};
    }
    assert actors - todo == actors;
  }

  /** Whether `own` reaches every position of `other`. */
  method DominatesRoot(own: Option<Node>, other: Option<Node>) returns (r: bool)
    requires RootWellFormed(own) && RootWellFormed(other)
    ensures r <==> Dominated(CountsOf(own), CountsOf(other))
  {
    hide WellFormed, Entries, Entry, Pending, Flat;
    var cursor := new ClockCursor(other);
    ghost var items := Items(other);
    ItemsAreCounts(other);
    ghost var k := 0;
    while true
      invariant fresh(cursor) && cursor.Valid()
      invariant k <= |items| && Pending(cursor.stack) == items[k..]
      invariant forall i :: 0 <= i < k ==> items[i].1 <= Count(Held(CountsOf(own), items[i].0))
      decreases |items| - k
    {
      var item := cursor.Next();
      if item.None? {
        AllDominated(CountsOf(own), CountsOf(other), items);
        return true;
      }
      assert item.value == items[k] && items[k..][1..] == items[k + 1..];
      var held := EntryAt(own, item.value.0);
      if Count(held) < item.value.1 {
        return false;
      }
      k := k + 1;
    }
  }

  /** Actor positions, zero entries included. Each operation acts as on the plain map. */
  class ActorClock {
    var root: Option<Node>

    ghost predicate Valid()
      reads this
    {
      RootWellFormed(root)
    }

    ghost function Value(): Counts
      reads this
      requires Valid()
    {
      CountsOf(root)
    }

    constructor ()
      ensures Valid() && Value() == map[]
    {
      root := None;
    }

    method Get(actor: Actor) returns (r: u64)
      requires Valid()
      ensures r == Count(Held(Value(), actor))
    {
      var held := EntryAt(root, actor);
      r := Count(held);
    }

    /** The clock changes at one actor only; none leaves no entry for it. */
    method Put(actor: Actor, count: Option<u64>)
      requires Valid()
      modifies this
      ensures Valid() && Value() == WithCount(old(Value()), actor, count)
    {
      root := PutRoot(root, actor, count);
    }

    method Advance(actor: Actor) returns (next: u64)
      requires Valid()
      modifies this
      ensures Valid() && Value() == WithCount(old(Value()), actor, Some(next))
      ensures next == Min(Count(Held(old(Value()), actor)) as int + 1, U64_MAX)
    {
      var current := Get(actor);
      next := if current == U64_MAX then U64_MAX else current + 1;
      Put(actor, Some(next));
    }

    /** Raises `actor` to at least `count`; observing zero still makes an entry. */
    method Observe(actor: Actor, count: u64)
      requires Valid()
      modifies this
      ensures Valid() && Value() == MaxOf(old(Value()), map[actor := count])
    {
      var held := EntryAt(root, actor);
      Put(actor, Some(Max(Count(held), count)));
    }

    /** The entry becomes `count`, or goes when `count` is zero. */
    method Set(actor: Actor, count: u64)
      requires Valid()
      modifies this
      ensures Valid() && Value() == WithCount(old(Value()), actor, if count == 0 then None else Some(count))
    {
      Put(actor, if count != 0 then Some(count) else None);
    }

    method Merge(other: ActorClock)
      requires Valid() && other.Valid()
      modifies this
      ensures Valid() && Value() == MaxOf(old(Value()), old(other.Value()))
    {
      hide WellFormed, Entries, Entry;
      ghost var own, theirs := root, other.root;
      if root.Some? && other.root.Some? {
        var node := Union(root.value, other.root.value);
        root := Some(node);
      } else if root.None? {
        root := other.root;
      }
      MergeAt(own, theirs, root);
    }

    method Intersect(other: ActorClock) returns (r: ActorClock)
      requires Valid() && other.Valid()
      ensures fresh(r) && r.Valid() && r.Value() == MinOf(Value(), other.Value())
    {
      r := new ActorClock();
      r.root := IntersectRoots(root, other.root);
    }

    /** Whether every position of `other` is reached; absent positions count as zero. */
    method Dominates(other: ActorClock) returns (r: bool)
      requires Valid() && other.Valid()
      ensures r <==> Dominated(Value(), other.Value())
    {
      var shared: bool := *;
      if shared && root == other.root {
        return true;
      }
      r := DominatesRoot(root, other.root);
    }

    /** Whether two clocks hold the same entries, by length and iteration. */
    method Equals(other: ActorClock) returns (r: bool)
      requires Valid() && other.Valid()
      ensures r <==> Value() == other.Value()
    {
      hide WellFormed, Entries, Items, CountsOf;
      RootsDecide(root, other.root);
      var shared: bool := *;
      if shared && root == other.root {
        return true;
      }
      if RootLen(root) != RootLen(other.root) {
        return false;
      }
      r := SameItems(root, other.root);
    }

    /** The entries of `actors`, by filtering the trie or by looking each up. */
    method Selected(actors: set<Actor>) returns (r: ActorClock)
      requires Valid()
      ensures fresh(r) && r.Valid() && r.Value() == Selection(Value(), actors)
    {
      r := new ActorClock();
      r.root := SelectRoot(root, actors);
    }
  }

  lemma RestrictedAt(root: Option<Node>, r: Option<Node>, actors: set<Actor>)
    requires root.Some? && RootWellFormed(root) && RootWellFormed(r) && Restricted(root.value, actors, r)
    ensures forall x :: At(r, x) == if x in actors then At(root, x) else None
  {
  }

  lemma LeafOnly(node: Node, actor: Actor)
    requires WellFormed(node) && node.Leaf? && node.actor == actor
    ensures forall x :: x != actor ==> Entry(node, x) == None
  {
  }

  lemma NewLeaf(actor: Actor, count: u64)
    ensures WellFormed(Leaf(actor, count))
    ensures forall x :: Entry(Leaf(actor, count), x) == if x == actor then Some(count) else None
  {
  }

  lemma IntersectStep(small: Counts, large: Counts, done: set<Actor>, item: Item)
    requires Held(small, item.0) == Some(item.1)
    ensures MinOf(Selection(small, done + {item.0}), large) ==
      var soFar := MinOf(Selection(small, done), large);
      if item.0 in large then soFar[item.0 := Min(item.1, large[item.0])] else soFar
  {
  }

  lemma AllDominated(c: Counts, d: Counts, items: seq<Item>)
    requires Done(items, |items|) == d.Keys
    requires forall i :: 0 <= i < |items| ==> Held(d, items[i].0) == Some(items[i].1)
    requires forall i :: 0 <= i < |items| ==> items[i].1 <= Count(Held(c, items[i].0))
    ensures Dominated(c, d)
  {
  }

  lemma SameCounts(a: Node, b: Node)
    requires WellFormed(a) && WellFormed(b)
    ensures SameEntries(a, b) <==> Entries(a) == Entries(b)
  {
    hide WellFormed, Entry, Entries;
    if Entries(a) == Entries(b) {
      forall x: Actor
        ensures Entry(a, x) == Entry(b, x)
      {
        EntriesEntry(a, x);
        EntriesEntry(b, x);
      }
    }
    if SameEntries(a, b) {
      SameLookups(a, b);
    }
  }

  lemma NoItems(root: Option<Node>)
    requires RootWellFormed(root)
    ensures Items(root) == [] <==> root.None?
    ensures CountsOf(root) == map[] <==> root.None?
    ensures |Items(root)| == RootLen(root)
  {
    hide Flat, WellFormed, Entries;
    if root.Some? {
      FlatIsEntries(root.value);
      var x := SomeEntry(root.value);
      CountsAt(root, x);
      assert x in CountsOf(root);
      var i :| 0 <= i < |Flat(root.value)| && Flat(root.value)[i].0 == x;
    }
  }

  lemma RootsDecide(a: Option<Node>, b: Option<Node>)
    requires RootWellFormed(a) && RootWellFormed(b)
    ensures Items(a) == Items(b) <==> CountsOf(a) == CountsOf(b)
    ensures |Items(a)| == RootLen(a) && |Items(b)| == RootLen(b)
  {
    hide Flat, WellFormed, Entries;
    NoItems(a);
    NoItems(b);
    if a.Some? && b.Some? {
      FlatDecides(a.value, b.value);
      SameCounts(a.value, b.value);
    }
  }
}
