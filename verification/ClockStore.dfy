/**
 Stored clock nodes: records that name their children by hash, clocks loaded from a
 root hash, and a scan that validates records without building nodes.
 */
module ClockStore {
  import opened Prelude
  import opened ActorBits
  import opened ClockTrie
  import opened ClockIter
  import opened ClockOps
  import opened ClockSelect

  /** A record: a leaf as it is, a branch with hashes in place of its children. */
  datatype Encoded =
    | LeafRecord(actor: Actor, count: u64)
    | BranchRecord(level: nat, bitmap: Bitmap, len: nat, key: Actor, children: seq<Hash>)

  /**
   Stored bytes: those that decode to a record, and those that do not. Decoding ignores what
   follows a record, so one record has many byte strings; the encoder writes the one without padding.
   */
  datatype Bytes = Record(encoded: Encoded, padding: nat) | Garbage(bits: nat)

  /** An ideal digest: it stands for the very bytes it was taken of. */
  datatype Hash = Digest(of: Bytes)

  function Encode(node: Node): Encoded {
    match node
    case Leaf(actor, count) => LeafRecord(actor, count)
    case Branch(level, bitmap, len, key, children) => BranchRecord(level, bitmap, len, key, HashAll(children))
  }

  function HashAll(nodes: seq<Node>): (hashes: seq<Hash>)
    ensures |hashes| == |nodes|
    ensures forall i :: 0 <= i < |nodes| ==> hashes[i] == Digest(Record(Encode(nodes[i]), 0))
  {
    if nodes == [] then []
    else HashAll(nodes[..|nodes| - 1]) + [Digest(Record(Encode(nodes[|nodes| - 1]), 0))]
  }

  function HashOf(node: Node): Hash {
    Digest(Record(Encode(node), 0))
  }

  /** Undoes `HashOf`; undecodable bytes give a leaf nobody stores. */
  ghost function NodeOf(hash: Hash): Node {
    match hash.of
    case Garbage(_) => Leaf(ZERO_ACTOR, 0)
    case Record(LeafRecord(actor, count), _) => Leaf(actor, count)
    case Record(BranchRecord(level, bitmap, len, key, children), _) =>
      Branch(level, bitmap, len, key, NodesOf(children))
  }

  ghost function NodesOf(hashes: seq<Hash>): (nodes: seq<Node>)
    ensures |nodes| == |hashes| && forall i :: 0 <= i < |nodes| ==> nodes[i] == NodeOf(hashes[i])
  {
    if hashes == [] then [] else NodesOf(hashes[..|hashes| - 1]) + [NodeOf(hashes[|hashes| - 1])]
  }

  /** A hash names one node: reading it back gives the node that was hashed. */
  lemma {:induction false} HashNames(node: Node)
    ensures NodeOf(HashOf(node)) == node
    decreases node
  {
    if node.Branch? {
      var named := NodesOf(HashAll(node.children));
      forall i | 0 <= i < |node.children|
        ensures named[i] == node.children[i]
      {
        HashNames(node.children[i]);
      }
      assert named == node.children;
    }
  }

  lemma HashIsInjective(a: Node, b: Node)
    requires HashOf(a) == HashOf(b)
    ensures a == b
  {
    HashNames(a);
    HashNames(b);
  }

  type Records = map<Hash, Bytes>

  /** Every record below `node` is stored under its hash. */
  ghost predicate Stored(node: Node, records: Records) {
    && HashOf(node) in records
    && records[HashOf(node)] == Record(Encode(node), 0)
    && (node.Branch? ==> forall i :: 0 <= i < |node.children| ==> Stored(node.children[i], records))
  }

  // ---- storing ----

  /** The records of a held node are all held. */
  ghost predicate HeldBelow(records: Records) {
    forall node :: HashOf(node) in records ==> Stored(node, records)
  }

  /** A held record is its node's, and its children are held or still to come. */
  ghost predicate HeldOrPending(records: Records, stack: seq<Node>) {
    forall node :: HashOf(node) in records ==>
      && records[HashOf(node)] == Record(Encode(node), 0)
      && (node.Branch? ==> forall i :: 0 <= i < |node.children| ==>
            HashOf(node.children[i]) in records || node.children[i] in stack)
  }

  lemma {:induction false} NothingPending(records: Records, node: Node)
    requires HeldOrPending(records, []) && HashOf(node) in records
    ensures Stored(node, records)
    decreases node
  {
    if node.Branch? {
      forall i | 0 <= i < |node.children|
        ensures Stored(node.children[i], records)
      {
        NothingPending(records, node.children[i]);
      }
    }
  }

  lemma PendingStep(records: Records, stack: seq<Node>, node: Node)
    requires HeldOrPending(records, stack + [node]) && HashOf(node) !in records
    ensures HeldOrPending(records[HashOf(node) := Record(Encode(node), 0)],
              stack + if node.Branch? then node.children else [])
  {
    var more := records[HashOf(node) := Record(Encode(node), 0)];
    var left := stack + if node.Branch? then node.children else [];
    forall n: Node | HashOf(n) in more
      ensures more[HashOf(n)] == Record(Encode(n), 0)
      ensures n.Branch? ==> forall i :: 0 <= i < |n.children| ==> HashOf(n.children[i]) in more || n.children[i] in left
    {
      if HashOf(n) == HashOf(node) {
        HashIsInjective(n, node);
      }
    }
  }

  /** The nodes of a trie. */
  ghost function NodesIn(node: Node): set<Node> {
    {node} + if node.Branch? then NodesInAll(node.children) else {}
  }

  ghost function NodesInAll(nodes: seq<Node>): set<Node> {
    if nodes == [] then {} else NodesInAll(nodes[..|nodes| - 1]) + NodesIn(nodes[|nodes| - 1])
  }

  lemma {:induction false} NodesInConcat(a: seq<Node>, b: seq<Node>)
    ensures NodesInAll(a + b) == NodesInAll(a) + NodesInAll(b)
  {
    hide NodesIn;
    if b == [] {
      assert a + b == a;
    } else {
      var (init, last) := (b[..|b| - 1], b[|b| - 1]);
      NodesInConcat(a, init);
      assert (a + b)[..|a + b| - 1] == a + init;
    }
  }

  /** Stores the nodes below `root` that are not held, and no other; a held node's subtree is not visited. */
  method StoreUnheld(root: Node, held: Records) returns (records: Records)
    requires HeldBelow(held)
    ensures HeldBelow(records) && Stored(root, records)
    ensures forall h <- held :: h in records && records[h] == held[h]
    ensures records.Keys <= held.Keys + set n <- NodesIn(root) :: HashOf(n)
  {
    hide Stored, HeldOrPending, HashOf;
    records := held;
    var stack := [root];
    assert HeldOrPending(records, stack) by { HeldStart(records, stack); }
    assert NodesInAll(stack) == NodesIn(root);
    while stack != []
      invariant HeldOrPending(records, stack)
      invariant forall h <- held :: h in records && records[h] == held[h]
      invariant HashOf(root) in records || root in stack
      invariant NodesInAll(stack) <= NodesIn(root)
      invariant records.Keys <= held.Keys + set n <- NodesIn(root) :: HashOf(n)
      decreases SizeAll(stack)
    {
      var node := stack[|stack| - 1];
      var rest := stack[..|stack| - 1];
      assert stack == rest + [node];
      assert SizeAll(stack) == SizeAll(rest) + Size(node);
      if HashOf(node) in records {
        PendingHeld(records, rest, node);
        stack := rest;
      } else {
        PendingStep(records, rest, node);
        records := records[HashOf(node) := Record(Encode(node), 0)];
        var children := if node.Branch? then node.children else [];
        SizeConcat(rest, children);
        NodesInConcat(rest, children);
        stack := rest + children;
      }
    }
    forall n: Node | HashOf(n) in records
      ensures Stored(n, records)
    {
      NothingPending(records, n);
    }
  }

  lemma HeldStart(records: Records, stack: seq<Node>)
    requires HeldBelow(records)
    ensures HeldOrPending(records, stack)
  {
    forall n: Node | HashOf(n) in records
      ensures records[HashOf(n)] == Record(Encode(n), 0)
      ensures n.Branch? ==> forall i :: 0 <= i < |n.children| ==> HashOf(n.children[i]) in records
    {
      assert Stored(n, records);
      if n.Branch? {
        forall i | 0 <= i < |n.children|
          ensures HashOf(n.children[i]) in records
        {
          assert Stored(n.children[i], records);
        }
      }
    }
  }

  lemma PendingHeld(records: Records, stack: seq<Node>, node: Node)
    requires HeldOrPending(records, stack + [node]) && HashOf(node) in records
    ensures HeldOrPending(records, stack)
  {
  }

  // ---- loading ----

  /** The records below `hash` are all there, decodable and under their own digests. */
  ghost predicate Available(hash: Hash, records: Records) {
    && hash in records && records[hash] == hash.of && hash.of.Record?
    && (hash.of.encoded.BranchRecord? ==>
          forall i :: 0 <= i < |hash.of.encoded.children| ==> Available(hash.of.encoded.children[i], records))
  }

  lemma {:induction false} StoredIsAvailable(node: Node, records: Records)
    requires Stored(node, records)
    ensures Available(HashOf(node), records)
    decreases node
  {
    if node.Branch? {
      var hashes := HashOf(node).of.encoded.children;
      assert hashes == HashAll(node.children);
      forall i | 0 <= i < |hashes|
        ensures Available(hashes[i], records)
      {
        StoredIsAvailable(node.children[i], records);
      }
    }
  }

  /** A child stands below its parent's level and shares the nibbles before it. */
  ghost predicate Below(node: Node, parent: Option<(nat, Actor)>) {
    parent.Some? ==>
      && parent.value.0 < Level(node) <= LEVELS
      && Agree(Key(node), parent.value.1, parent.value.0)
  }

  ghost predicate AllBelow(children: seq<Node>, level: nat, key: Actor) {
    forall i :: 0 <= i < |children| ==> WellFormed(children[i]) && Below(children[i], Some((level, key)))
  }

  predicate Increasing(level: nat, children: seq<Node>)
    requires level < LEVELS
  {
    forall i :: 0 <= i < |children| - 1 ==>
      Nibble(Key(children[i]), level) < Nibble(Key(children[i + 1]), level)
  }

  /** Children that stand below their parent with ascending nibbles make a row. */
  lemma {:induction false} CheckedRow(level: nat, key: Actor, children: seq<Node>)
    requires level < LEVELS && Increasing(level, children)
    requires forall i :: 0 <= i < |children| ==> WellFormed(children[i]) && Below(children[i], Some((level, key)))
    ensures Row(level, key, children, if children == [] then 0 else Nibble(Key(children[|children| - 1]), level) + 1)
  {
    hide Nibble, Agree, WellFormed, Row;
    if children == [] {
      NoRow(level, key);
    } else {
      var (init, last) := (children[..|children| - 1], children[|children| - 1]);
      CheckedRow(level, key, init);
      assert init + [last] == children;
      RowAppend(level, key, init,
        if init == [] then 0 else Nibble(Key(init[|init| - 1]), level) + 1, last, Nibble(Key(last), level));
    }
  }

  /** The local checks of a branch, made on its loaded children. */
  predicate BranchChecks(level: nat, bitmap: Bitmap, len: nat, children: seq<Node>)
    requires level < LEVELS
  {
    BitsOf(level, children) == bitmap && SumLen(children) == len && Increasing(level, children)
  }

  lemma ChecksAreWellFormed(level: nat, bitmap: Bitmap, len: nat, key: Actor, children: seq<Node>)
    requires level < LEVELS && 2 <= |children| == Slot(bitmap, 16)
    requires BranchChecks(level, bitmap, len, children)
    requires forall i :: 0 <= i < |children| ==> WellFormed(children[i]) && Below(children[i], Some((level, key)))
    ensures WellFormed(Branch(level, bitmap, len, key, children))
  {
    hide Nibble, Agree, Slot;
    CheckedRow(level, key, children);
  }

  lemma {:induction false} BitsAt(level: nat, children: seq<Node>, d: nat)
    requires level < LEVELS && d < 16
    ensures BitsOf(level, children)[d] <==> exists i :: 0 <= i < |children| && Nibble(Key(children[i]), level) == d
  {
    hide Nibble;
    if children != [] {
      var (init, last) := (children[..|children| - 1], children[|children| - 1]);
      BitsAt(level, init, d);
      if Nibble(Key(last), level) == d {
        assert children[|children| - 1] == last;
      } else if BitsOf(level, init)[d] {
        var i :| 0 <= i < |init| && Nibble(Key(init[i]), level) == d;
        assert children[i] == init[i];
      } else if i :| 0 <= i < |children| && Nibble(Key(children[i]), level) == d {
        assert init[i] == children[i];
      }
    }
  }

  lemma WellFormedPassesChecks(node: Node)
    requires WellFormed(node) && node.Branch?
    ensures BranchChecks(node.level, node.bitmap, node.len, node.children)
    ensures forall i :: 0 <= i < |node.children| ==> Below(node.children[i], Some((node.level, node.key)))
  {
    hide Nibble, Slot, Agree;
    forall i | 0 <= i < |node.children|
      ensures Below(node.children[i], Some((node.level, node.key)))
      ensures i + 1 < |node.children| ==>
        Nibble(Key(node.children[i]), node.level) < Nibble(Key(node.children[i + 1]), node.level)
    {
      NextDigit(node, i);
    }
    var bits := BitsOf(node.level, node.children);
    forall d | 0 <= d < 16
      ensures bits[d] == node.bitmap[d]
    {
      BitsAt(node.level, node.children, d);
      if node.bitmap[d] {
        ChildDigit(node, d);
      } else if bits[d] {
        var i :| 0 <= i < |node.children| && Nibble(Key(node.children[i]), node.level) == d;
        NextDigit(node, i);
      }
    }
    assert bits == node.bitmap;
  }

  datatype Refusal = Corrupt

  /** The size at which the name cache retains only what is still reachable. */
  const CACHE_NODES: nat := 0x4_0000

  /** The nodes a cache can share by hash. A name is weak: its node may be gone when asked for. */
  type Named = map<Hash, Node>

  ghost predicate TrueNames(nodes: Named) {
    forall h <- nodes :: nodes[h] == NodeOf(h) && WellFormed(nodes[h])
  }

  function Among(nodes: Named, alive: set<Hash>): Named {
    map h | h in nodes && h in alive :: nodes[h]
  }

  lemma FewerNames(nodes: Named, alive: set<Hash>)
    ensures |Among(nodes, alive)| <= |nodes| && Among(nodes, alive).Keys <= nodes.Keys
    ensures TrueNames(nodes) ==> TrueNames(Among(nodes, alive))
  {
    hide WellFormed, NodeOf;
    var kept := Among(nodes, alive);
    assert kept.Keys + (nodes.Keys - kept.Keys) == nodes.Keys;
  }

  lemma NoNames()
    ensures TrueNames(map[])
  {
  }

  lemma OneMoreName(nodes: Named, hash: Hash, node: Node)
    requires node == NodeOf(hash) && WellFormed(node)
    ensures TrueNames(nodes) ==> TrueNames(nodes[hash := node])
    ensures nodes[hash := node].Keys == nodes.Keys + {hash}
    ensures |nodes[hash := node]| == if hash in nodes then |nodes| else |nodes| + 1
  {
    hide WellFormed, NodeOf;
    assert nodes[hash := node].Keys == nodes.Keys + {hash};
    assert hash in nodes ==> nodes.Keys + {hash} == nodes.Keys;
  }

  class NodeNames {
    var nodes: Named

    /** Every name stands for the well-formed node its hash names. */
    ghost predicate Valid()
      reads this
    {
      TrueNames(nodes)
    }

    /** Every named node could be read from `records`. */
    ghost predicate Backed(records: Records)
      reads this
    {
      forall h <- nodes :: Available(h, records)
    }

    constructor ()
      ensures Valid() && nodes == map[]
    {
      nodes := map[];
    }

    method Name(hash: Hash, node: Node)
      requires Valid() && node == NodeOf(hash) && WellFormed(node)
      modifies this
      ensures Valid() && hash in nodes
      ensures nodes.Keys <= old(nodes.Keys) + {hash}
      ensures old(|nodes|) < CACHE_NODES || hash in old(nodes) ==> nodes.Keys == old(nodes.Keys) + {hash}
      ensures old(|nodes|) <= CACHE_NODES ==> |nodes| <= CACHE_NODES
    {
      hide TrueNames, WellFormed, NodeOf, Among;
      NoNames();
      if hash in nodes {
        OneMoreName(nodes, hash, node);
        nodes := nodes[hash := node];
        return;
      }
      if |nodes| >= CACHE_NODES {
        var alive: set<Hash> := *;
        FewerNames(nodes, alive);
        nodes := Among(nodes, alive);
        if |nodes| >= CACHE_NODES / 2 {
          nodes := map[];
        }
      }
      OneMoreName(nodes, hash, node);
      nodes := nodes[hash := node];
    }

    /**
     What is returned is well formed as a whole and the node `hash` names; a node whose records are all there and
     well formed is returned; and without foreign names nothing else is.
     */
    method Load(hash: Hash, records: Records, parent: Option<(nat, Actor)>) returns (r: Result<Node, Refusal>)
      requires Valid() && (parent.Some? ==> parent.value.0 < LEVELS)
      modifies this
      ensures Valid()
      ensures r.Ok? ==> r.value == NodeOf(hash) && WellFormed(r.value) && Below(r.value, parent)
      ensures Available(hash, records) && WellFormed(NodeOf(hash)) && Below(NodeOf(hash), parent) ==> r.Ok?
      ensures old(Backed(records)) ==> Backed(records) && (r.Ok? ==> Available(hash, records))
      decreases hash, 1
    {
      hide Agree, WellFormed, Nibble;
      var node;
      var upgraded: bool := *;
      if upgraded && hash in nodes {
        node := nodes[hash];
      } else {
        var read := ReadNode(hash, records);
        if read.Err? {
          return Err(Corrupt);
        }
        node := read.value;
        Name(hash, node);
      }
      WellFormedLevel(node);
      if parent.Some? {
        var (level, key) := parent.value;
        var at := FirstDifference(Key(node), key);
        AgreeUpTo(Key(node), key, level);
        if !(node.Leaf? || node.level > level) || (at.Some? && at.value < level) {
          return Err(Corrupt);
        }
      }
      return Ok(node);
    }

    method ReadNode(hash: Hash, records: Records) returns (r: Result<Node, Refusal>)
      requires Valid()
      modifies this
      ensures Valid()
      ensures r.Ok? ==> r.value == NodeOf(hash) && WellFormed(r.value)
      ensures Available(hash, records) && WellFormed(NodeOf(hash)) ==> r.Ok?
      ensures old(Backed(records)) ==> Backed(records) && (r.Ok? ==> Available(hash, records))
      decreases hash, 0
    {
      hide Agree, Nibble, BranchChecks, NodesOf, Below, Slot, Valid, Backed;
      if hash !in records || Digest(records[hash]) != hash || records[hash].Garbage? {
        return Err(Corrupt);
      }
      var encoded := hash.of.encoded;
      if encoded.LeafRecord? {
        return Ok(Leaf(encoded.actor, encoded.count));
      }
      var (level, bitmap, hashes) := (encoded.level, encoded.bitmap, encoded.children);
      if level >= LEVELS || |hashes| < 2 || Slot(bitmap, 16) != |hashes| {
        return Err(Corrupt);
      }
      if WellFormed(NodeOf(hash)) {
        WellFormedPassesChecks(NodeOf(hash));
      }
      var children := ReadChildren(hashes, records, level, encoded.key);
      if children.Err? || !BranchChecks(level, bitmap, encoded.len, children.value) {
        return Err(Corrupt);
      }
      ChecksAreWellFormed(level, bitmap, encoded.len, encoded.key, children.value);
      return Ok(Branch(level, bitmap, encoded.len, encoded.key, children.value));
    }

    method ReadChildren(hashes: seq<Hash>, records: Records, level: nat, key: Actor)
      returns (r: Result<seq<Node>, Refusal>)
      requires Valid() && level < LEVELS
      modifies this
      ensures Valid()
      ensures r.Ok? ==> r.value == NodesOf(hashes) && AllBelow(r.value, level, key)
      ensures (forall i :: 0 <= i < |hashes| ==> Available(hashes[i], records)) && AllBelow(NodesOf(hashes), level, key)
        ==> r.Ok?
      ensures old(Backed(records)) ==>
        Backed(records) && (r.Ok? ==> forall i :: 0 <= i < |hashes| ==> Available(hashes[i], records))
      decreases hashes
    {
      hide Valid, Backed, WellFormed, Below, Available, NodeOf;
      var children := [];
      while |children| < |hashes|
        invariant Valid() && |children| <= |hashes|
        invariant forall i :: 0 <= i < |children| ==> children[i] == NodeOf(hashes[i])
        invariant AllBelow(children, level, key)
        invariant old(Backed(records)) ==>
          Backed(records) && forall i :: 0 <= i < |children| ==> Available(hashes[i], records)
      {
        var child := Load(hashes[|children|], records, Some((level, key)));
        if child.Err? {
          return Err(Corrupt);
        }
        children := children + [child.value];
      }
      assert children == NodesOf(hashes);
      return Ok(children);
    }
  }

  /** No difference before `level` is agreement up to it. */
  lemma AgreeUpTo(a: Actor, b: Actor, level: nat)
    requires level < LEVELS
    ensures Agree(a, b, level) <==> FirstDifference(a, b).None? || FirstDifference(a, b).value >= level
  {
  }

  /** Storing a clock's unheld nodes and loading its root gives the clock back, with any cache. */
  method StoreThenLoad(root: Node, held: Records, names: NodeNames) returns (r: Result<Node, Refusal>)
    requires WellFormed(root) && HeldBelow(held) && names.Valid()
    modifies names
    ensures r == Ok(root)
  {
    var records := StoreUnheld(root, held);
    StoredIsAvailable(root, records);
    HashNames(root);
    r := names.Load(HashOf(root), records, None);
  }
}
