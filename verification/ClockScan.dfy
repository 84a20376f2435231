/** A bounded validator of clock node records that never builds a node. */
module ClockScan {
  import opened Prelude
  import opened ActorBits
  import opened ClockTrie
  import opened ClockOps
  import opened ClockSelect
  import opened ClockStore

  /** What a scan keeps of one record; its children are a range of one shared vector. */
  datatype Checked = Checked(key: Actor, len: nat, level: nat, bitmap: Bitmap, start: nat, end: nat)

  /** `checked` describes the record `hash` names. */
  ghost predicate Describes(hash: Hash, checked: Checked, children: seq<Hash>) {
    && checked.start <= checked.end <= |children|
    && hash.of.Record?
    && match hash.of.encoded
       case LeafRecord(actor, _) =>
         checked.key == actor && checked.len == 1 && checked.level == LEVELS && checked.start == checked.end
       case BranchRecord(level, bitmap, len, key, hashes) =>
         && checked.key == key && checked.len == len && checked.level == level < LEVELS
         && checked.bitmap == bitmap && 2 <= |hashes| == Slot(bitmap, 16)
         && children[checked.start..checked.end] == hashes
  }

  lemma DescribesMore(hash: Hash, checked: Checked, children: seq<Hash>, more: seq<Hash>)
    requires Describes(hash, checked, children)
    ensures Describes(hash, checked, children + more)
  {
  }

  type Nodes = map<Hash, Checked>

  ghost predicate AllDescribed(nodes: Nodes, children: seq<Hash>) {
    forall h <- nodes :: Describes(h, nodes[h], children)
  }

  /** The node a record names is well formed and its records are all collected. */
  ghost predicate Good(hash: Hash, nodes: Nodes) {
    hash in nodes && WellFormed(NodeOf(hash)) && Available(hash, Collected(nodes))
  }

  ghost function Collected(nodes: Nodes): Records {
    map h <- nodes :: h.of
  }

  /** The checks of one branch against the collected children, as far as the first `n`. */
  ghost predicate Matches(node: Checked, hashes: seq<Hash>, nodes: Nodes, n: nat, bitmap: Bitmap, len: nat)
    requires n <= |hashes| && node.level < LEVELS
  {
    && (forall i :: 0 <= i < n ==> hashes[i] in nodes && ChildFits(nodes[hashes[i]], node))
    && (forall i :: 0 <= i < n - 1 ==>
          Nibble(nodes[hashes[i]].key, node.level) < Nibble(nodes[hashes[i + 1]].key, node.level))
    && bitmap == Digits(node.level, hashes[..n], nodes)
    && len == Total(hashes[..n], nodes)
  }

  ghost predicate ChildFits(child: Checked, node: Checked)
    requires node.level < LEVELS
  {
    node.level < child.level && Agree(child.key, node.key, node.level)
  }

  ghost function Digits(level: nat, hashes: seq<Hash>, nodes: Nodes): Bitmap
    requires level < LEVELS
  {
    if hashes == [] then NO_BITS
    else
      var last := hashes[|hashes| - 1];
      var bits := Digits(level, hashes[..|hashes| - 1], nodes);
      if last in nodes then bits[Nibble(nodes[last].key, level) := true] else bits
  }

  ghost function Total(hashes: seq<Hash>, nodes: Nodes): nat {
    if hashes == [] then 0
    else
      var last := hashes[|hashes| - 1];
      Total(hashes[..|hashes| - 1], nodes) + if last in nodes then nodes[last].len else 0
  }

  /** A branch whose collected children pass every check. */
  ghost predicate Passes(hash: Hash, nodes: Nodes, children: seq<Hash>)
    requires hash in nodes && Describes(hash, nodes[hash], children)
  {
    var node := nodes[hash];
    var hashes := children[node.start..node.end];
    node.level < LEVELS ==> Matches(node, hashes, nodes, |hashes|, node.bitmap, node.len)
  }

  /** What a description says of a node, read off the node. */
  lemma DescribedNode(hash: Hash, checked: Checked, children: seq<Hash>)
    requires Describes(hash, checked, children)
    ensures Key(NodeOf(hash)) == checked.key && Len(NodeOf(hash)) == checked.len
    ensures Level(NodeOf(hash)) == checked.level <= LEVELS
  {
  }

  lemma {:induction false} DigitsAreBits(level: nat, hashes: seq<Hash>, nodes: Nodes, children: seq<Hash>)
    requires level < LEVELS && AllDescribed(nodes, children)
    requires forall i :: 0 <= i < |hashes| ==> hashes[i] in nodes
    ensures BitsOf(level, NodesOf(hashes)) == Digits(level, hashes, nodes)
    ensures SumLen(NodesOf(hashes)) == Total(hashes, nodes)
  {
    hide Nibble, Describes, NodeOf;
    if hashes != [] {
      var (init, last) := (hashes[..|hashes| - 1], hashes[|hashes| - 1]);
      DigitsAreBits(level, init, nodes, children);
      DescribedNode(last, nodes[last], children);
      assert NodesOf(hashes)[..|hashes| - 1] == NodesOf(init);
    }
  }

  /** When every branch passes against its children, every record names a well-formed node. */
  lemma {:induction false} PassedIsGood(hash: Hash, nodes: Nodes, children: seq<Hash>)
    requires AllDescribed(nodes, children) && hash in nodes
    requires forall h <- nodes :: Passes(h, nodes, children)
    ensures Good(hash, nodes)
    decreases hash
  {
    hide WellFormed, Matches, NodeOf, Slot, Good;
    assert Describes(hash, nodes[hash], children);
    if hash.of.encoded.BranchRecord? {
      var (node, hashes) := (nodes[hash], hash.of.encoded.children);
      assert Passes(hash, nodes, children);
      forall i | 0 <= i < |hashes|
        ensures Good(hashes[i], nodes)
      {
        MatchesChild(node, hashes, nodes, i);
        PassedIsGood(hashes[i], nodes, children);
      }
      GoodBranch(hash, nodes, children);
    } else {
      LeafIsGood(hash, nodes, children);
    }
  }

  lemma MatchesChild(node: Checked, hashes: seq<Hash>, nodes: Nodes, i: nat)
    requires i < |hashes| && node.level < LEVELS
    requires Matches(node, hashes, nodes, |hashes|, node.bitmap, node.len)
    ensures hashes[i] in nodes && ChildFits(nodes[hashes[i]], node)
  {
  }

  lemma LeafIsGood(hash: Hash, nodes: Nodes, children: seq<Hash>)
    requires hash in nodes && Describes(hash, nodes[hash], children) && hash.of.encoded.LeafRecord?
    ensures Good(hash, nodes)
  {
  }

  lemma GoodBranch(hash: Hash, nodes: Nodes, children: seq<Hash>)
    requires AllDescribed(nodes, children) && hash in nodes
    requires Describes(hash, nodes[hash], children) && Passes(hash, nodes, children) && hash.of.encoded.BranchRecord?
    requires forall i :: 0 <= i < |hash.of.encoded.children| ==> Good(hash.of.encoded.children[i], nodes)
    ensures Good(hash, nodes)
  {
    hide Nibble, Agree, WellFormed, Matches, BranchChecks, Slot, Available;
    var (node, hashes) := (nodes[hash], hash.of.encoded.children);
    forall i | 0 <= i < |hashes|
      ensures WellFormed(NodeOf(hashes[i])) && Below(NodeOf(hashes[i]), Some((node.level, node.key)))
      ensures hashes[i] in nodes && Key(NodeOf(hashes[i])) == nodes[hashes[i]].key
    {
      assert Good(hashes[i], nodes);
      MatchesChild(node, hashes, nodes, i);
      DescribedNode(hashes[i], nodes[hashes[i]], children);
    }
    DigitsAreBits(node.level, hashes, nodes, children);
    PassedChecks(node, hashes, nodes);
    ChecksAreWellFormed(node.level, node.bitmap, node.len, node.key, NodesOf(hashes));
    AvailableBranch(hash, nodes);
  }

  lemma AvailableBranch(hash: Hash, nodes: Nodes)
    requires hash in nodes && hash.of.Record? && hash.of.encoded.BranchRecord?
    requires forall i :: 0 <= i < |hash.of.encoded.children| ==> Good(hash.of.encoded.children[i], nodes)
    ensures Available(hash, Collected(nodes))
  {
  }

  lemma PassedChecks(node: Checked, hashes: seq<Hash>, nodes: Nodes)
    requires node.level < LEVELS && Matches(node, hashes, nodes, |hashes|, node.bitmap, node.len)
    requires forall i :: 0 <= i < |hashes| ==> Key(NodeOf(hashes[i])) == nodes[hashes[i]].key
    requires BitsOf(node.level, NodesOf(hashes)) == Digits(node.level, hashes, nodes)
    requires SumLen(NodesOf(hashes)) == Total(hashes, nodes)
    ensures BranchChecks(node.level, node.bitmap, node.len, NodesOf(hashes))
  {
    hide Nibble, Digits, Total, BitsOf, SumLen, NodeOf, ChildFits, Agree;
    assert hashes[..|hashes|] == hashes;
  }

  /** The shape a record must have on its own. */
  predicate Shaped(bytes: Bytes) {
    && bytes.Record?
    && (bytes.encoded.BranchRecord? ==>
          && bytes.encoded.level < LEVELS && 2 <= |bytes.encoded.children| <= 16
          && Slot(bytes.encoded.bitmap, 16) == |bytes.encoded.children|)
  }

  class Scan {
    var nodes: Option<Nodes>
    var children: seq<Hash>
    var complete: bool
    const fallback: NodeNames

    ghost predicate Valid()
      reads this, fallback
    {
      && fallback.Valid()
      && (nodes.Some? ==> AllDescribed(nodes.value, children))
      && (nodes.Some? && complete ==> forall h <- nodes.value :: Good(h, nodes.value))
    }

    constructor ()
      ensures Valid() && nodes == Some(map[]) && fresh(fallback) && fallback.nodes == map[]
    {
      nodes := Some(map[]);
      children := [];
      complete := false;
      fallback := new NodeNames();
    }

    /** Takes one record; past its memory limit the scan forgets everything and falls back to loading. */
    method Push(hash: Hash, bytes: Bytes) returns (ok: bool)
      requires Valid()
      modifies this
      ensures Valid() && complete == old(complete)
      ensures ok <==>
        Digest(bytes) == hash && (old(nodes).None? || hash in old(nodes).value || (!complete && Shaped(bytes)))
      ensures !ok ==> nodes == old(nodes) && children == old(children)
      ensures ok && nodes.Some? ==> old(nodes).Some? && hash in nodes.value
      ensures nodes.Some? ==> old(nodes).Some? && nodes.value.Keys <= old(nodes).value.Keys + {hash}
      ensures nodes.Some? ==> forall h <- old(nodes).value :: h in nodes.value
    {
      hide Good, Describes;
      if Digest(bytes) != hash {
        return false;
      }
      if nodes.None? || hash in nodes.value {
        return true;
      }
      if complete || bytes.Garbage? {
        return false;
      }
      var (key, len, level, bitmap, hashes) := match bytes.encoded
        case LeafRecord(actor, _) => (actor, 1, LEVELS, NO_BITS, [])
        case BranchRecord(l, b, n, k, hs) => (k, n, l, b, hs);
      if bytes.encoded.BranchRecord? && (level >= LEVELS || !(2 <= |hashes| <= 16) || Slot(bitmap, 16) != |hashes|) {
        return false;
      }
      var overLimit: bool := *;
      if overLimit {
        nodes, children := None, [];
        return true;
      }
      var start := |children|;
      var checked := Checked(key, len, level, bitmap, start, start + |hashes|);
      ghost var (was, before) := (nodes.value, children);
      children := children + hashes;
      nodes := Some(nodes.value[hash := checked]);
      forall h <- nodes.value
        ensures Describes(h, nodes.value[h], children)
      {
        if h == hash {
          NewDescription(hash, checked, before, hashes);
        } else {
          DescribesMore(h, was[h], before, hashes);
        }
      }
      return true;
    }

    /**
     Accepts `root` when every collected branch agrees with its collected children and the root is
     among them. An accepted root can be loaded from the collected records.
     */
    method Validate(root: Hash, records: Records) returns (ok: bool)
      requires Valid()
      modifies this, fallback
      ensures Valid() && nodes == old(nodes)
      ensures ok ==> WellFormed(NodeOf(root))
      ensures nodes.Some? && root in nodes.value && AllGood(nodes.value) ==> ok
      ensures ok && nodes.Some? ==> complete && Good(root, nodes.value)
      ensures ok && nodes.None? && old(fallback.Backed(records)) ==> Available(root, records)
    {
      hide Good, AllDescribed, AllGood, Passes;
      if nodes.None? {
        var clock := fallback.Load(root, records, None);
        return clock.Ok?;
      }
      if !complete {
        if AllGood(nodes.value) {
          AllGoodPass(nodes.value, children);
        }
        var whole := CheckAll(nodes.value, children);
        if !whole {
          return false;
        }
        forall h <- nodes.value
          ensures Good(h, nodes.value)
        {
          PassedIsGood(h, nodes.value, children);
        }
        complete := true;
      }
      assert root in nodes.value ==> WellFormed(NodeOf(root)) by {
        if root in nodes.value {
          GoodIsWellFormed(root, nodes.value);
        }
      }
      return root in nodes.value;
    }
  }

  /**
   Every collected record names a well-formed clock with all its records collected, of a length that
   fits its field.
   */
  ghost predicate AllGood(nodes: Nodes) {
    forall h <- nodes :: Good(h, nodes) && nodes[h].len <= U64_MAX
  }

  lemma AllGoodPass(nodes: Nodes, children: seq<Hash>)
    requires AllGood(nodes) && AllDescribed(nodes, children)
    ensures forall h <- nodes :: Passes(h, nodes, children) && nodes[h].len <= U64_MAX
  {
    hide Good, Passes, Describes;
    forall h <- nodes
      ensures Passes(h, nodes, children)
    {
      GoodPasses(h, nodes, children);
    }
  }

  /** A record of a well-formed clock passes against its collected children. */
  lemma GoodPasses(hash: Hash, nodes: Nodes, children: seq<Hash>)
    requires AllDescribed(nodes, children) && Good(hash, nodes)
    ensures Passes(hash, nodes, children)
  {
    hide WellFormed, BranchChecks, Nibble, Agree, Digits, Total, Slot, BitsOf, SumLen;
    assert Describes(hash, nodes[hash], children);
    if hash.of.encoded.BranchRecord? {
      var (node, hashes) := (nodes[hash], hash.of.encoded.children);
      WellFormedPassesChecks(NodeOf(hash));
      assert hashes[..|hashes|] == hashes;
      forall i | 0 <= i < |hashes|
        ensures hashes[i] in nodes && Key(NodeOf(hashes[i])) == nodes[hashes[i]].key
        ensures ChildFits(nodes[hashes[i]], node)
      {
        assert Available(hashes[i], Collected(nodes));
        DescribedNode(hashes[i], nodes[hashes[i]], children);
        assert Below(NodesOf(hashes)[i], Some((node.level, node.key)));
      }
      DigitsAreBits(node.level, hashes, nodes, children);
      ChecksMatch(node, hashes, nodes);
    }
  }

  lemma ChecksMatch(node: Checked, hashes: seq<Hash>, nodes: Nodes)
    requires node.level < LEVELS && BranchChecks(node.level, node.bitmap, node.len, NodesOf(hashes))
    requires forall i :: 0 <= i < |hashes| ==>
      hashes[i] in nodes && Key(NodeOf(hashes[i])) == nodes[hashes[i]].key && ChildFits(nodes[hashes[i]], node)
    requires BitsOf(node.level, NodesOf(hashes)) == Digits(node.level, hashes, nodes)
    requires SumLen(NodesOf(hashes)) == Total(hashes, nodes)
    ensures Matches(node, hashes, nodes, |hashes|, node.bitmap, node.len)
  {
    hide Nibble, Digits, Total, BitsOf, SumLen, NodeOf, ChildFits, Agree;
    assert hashes[..|hashes|] == hashes;
  }

  lemma GoodIsWellFormed(hash: Hash, nodes: Nodes)
    requires Good(hash, nodes)
    ensures WellFormed(NodeOf(hash))
  {
  }

  lemma NewDescription(hash: Hash, checked: Checked, before: seq<Hash>, hashes: seq<Hash>)
    requires checked.start == |before| && checked.end == |before| + |hashes|
    requires hash.of.Record?
    requires match hash.of.encoded
      case LeafRecord(actor, _) => checked.key == actor && checked.len == 1 && checked.level == LEVELS && hashes == []
      case BranchRecord(level, bitmap, len, key, hs) =>
        && checked.key == key && checked.len == len && checked.level == level < LEVELS
        && checked.bitmap == bitmap && 2 <= |hs| == Slot(bitmap, 16) && hs == hashes
    ensures Describes(hash, checked, before + hashes)
  {
  }

  /** Checks every collected branch against its collected children. */
  method CheckAll(nodes: Nodes, children: seq<Hash>) returns (ok: bool)
    requires AllDescribed(nodes, children)
    ensures ok ==> forall h <- nodes :: Passes(h, nodes, children)
    ensures (forall h <- nodes :: Passes(h, nodes, children) && nodes[h].len <= U64_MAX) ==> ok
  {
    hide Describes, Passes;
    var todo := nodes.Keys;
    while todo != {}
      invariant todo <= nodes.Keys
      invariant forall h <- nodes :: h !in todo ==> Passes(h, nodes, children)
      decreases todo
    {
      var h :| h in todo;
      var passed := CheckBranch(h, nodes, children);
      if !passed {
        return false;
      }
      todo := todo - {h};
    }
    return true;
  }

  lemma MatchesNone(node: Checked, hashes: seq<Hash>, nodes: Nodes)
    requires node.level < LEVELS
    ensures Matches(node, hashes, nodes, 0, NO_BITS, 0)
  {
  }

  lemma MatchesStep(node: Checked, hashes: seq<Hash>, nodes: Nodes, n: nat, bitmap: Bitmap, len: nat)
    requires n < |hashes| && node.level < LEVELS && Matches(node, hashes, nodes, n, bitmap, len)
    requires hashes[n] in nodes && ChildFits(nodes[hashes[n]], node)
    requires n > 0 ==> Nibble(nodes[hashes[n - 1]].key, node.level) < Nibble(nodes[hashes[n]].key, node.level)
    ensures Matches(node, hashes, nodes, n + 1,
              bitmap[Nibble(nodes[hashes[n]].key, node.level) := true], len + nodes[hashes[n]].len)
  {
    hide Nibble, Agree, ChildFits;
    assert hashes[..n + 1][..n] == hashes[..n];
  }

  lemma {:induction false} TotalGrows(hashes: seq<Hash>, nodes: Nodes, n: nat)
    requires n <= |hashes|
    ensures Total(hashes[..n], nodes) <= Total(hashes, nodes)
    decreases |hashes|
  {
    if n < |hashes| {
      TotalGrows(hashes[..|hashes| - 1], nodes, n);
      assert hashes[..|hashes| - 1][..n] == hashes[..n];
    } else {
      assert hashes[..n] == hashes;
    }
  }

  method CheckBranch(hash: Hash, nodes: Nodes, children: seq<Hash>) returns (ok: bool)
    requires hash in nodes && Describes(hash, nodes[hash], children)
    ensures ok ==> Passes(hash, nodes, children)
    ensures Passes(hash, nodes, children) && nodes[hash].len <= U64_MAX ==> ok
  {
    hide Nibble, Agree, Digits, Total, FirstDifference, Slot;
    var node := nodes[hash];
    if node.level >= LEVELS {
      return true;
    }
    var hashes := children[node.start..node.end];
    var (bitmap, previous) := (NO_BITS, None);
    var len: nat, n: nat := 0, 0;
    MatchesNone(node, hashes, nodes);
    while n < |hashes|
      invariant n <= |hashes| && Matches(node, hashes, nodes, n, bitmap, len)
      invariant previous == if n == 0 then None else Some(Nibble(nodes[hashes[n - 1]].key, node.level))
    {
      if hashes[n] !in nodes {
        return false;
      }
      var child := nodes[hashes[n]];
      var at := FirstDifference(child.key, node.key);
      AgreeUpTo(child.key, node.key, node.level);
      if child.level <= node.level || (at.Some? && at.value < node.level) {
        return false;
      }
      var digit := Nibble(child.key, node.level);
      if previous.Some? && previous.value >= digit {
        return false;
      }
      MatchesStep(node, hashes, nodes, n, bitmap, len);
      TotalGrows(hashes, nodes, n + 1);
      assert hashes[..|hashes|] == hashes;
      if len + child.len > U64_MAX {
        return false;
      }
      previous, bitmap, len, n := Some(digit), bitmap[digit := true], len + child.len, n + 1;
    }
    return bitmap == node.bitmap && len == node.len;
  }

  lemma {:induction false} AvailableMore(hash: Hash, records: Records, more: Records)
    requires Available(hash, records) && forall h <- records :: h in more && more[h] == records[h]
    ensures Available(hash, more)
    decreases hash
  {
    if hash.of.encoded.BranchRecord? {
      var hashes := hash.of.encoded.children;
      forall i | 0 <= i < |hashes|
        ensures Available(hashes[i], more)
      {
        AvailableMore(hashes[i], records, more);
      }
    }
  }

  /** A root the scan accepts loads from any records that hold what was scanned, whatever is cached. */
  method AcceptedRootLoads(scan: Scan, root: Hash, records: Records, names: NodeNames)
    returns (ok: bool, r: Result<Node, Refusal>)
    requires scan.Valid() && names.Valid() && scan.nodes.Some? && names != scan.fallback
    requires forall h <- scan.nodes.value :: h in records && records[h] == h.of
    modifies scan, scan.fallback, names
    ensures ok ==> r == Ok(NodeOf(root)) && WellFormed(NodeOf(root))
  {
    hide Available, WellFormed, NodeOf;
    ok := scan.Validate(root, records);
    if ok {
      AvailableMore(root, Collected(scan.nodes.value), records);
    }
    r := names.Load(root, records, None);
  }
}
