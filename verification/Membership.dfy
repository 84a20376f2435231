/**
 Membership and policy at a part of the history. For each peer, and for the policy, one
 control decides, the greatest by key, whatever the order they are met in.
 */
module Membership {
  import opened Prelude
  import opened Dag

  datatype ControlKey = ControlKey(gen: u64, actor: ActorId, pos: u64, id: OpId)

  function KeyOf(op: Op): ControlKey {
    ControlKey(op.gen, op.actor, op.pos, op.id)
  }

  /** Field by field, in declaration order. */
  predicate KeyLess(a: ControlKey, b: ControlKey) {
    || a.gen < b.gen
    || (a.gen == b.gen && a.actor < b.actor)
    || (a.gen == b.gen && a.actor == b.actor && a.pos < b.pos)
    || (a.gen == b.gen && a.actor == b.actor && a.pos == b.pos && a.id < b.id)
  }

  type Controls = map<PeerId, (ControlKey, bool)>

  datatype TopicState = TopicState(
    eventType: string,
    genesis: OpId,
    members: set<PeerId>,
    policy: Policy,
    controls: Controls,
    policyControl: Option<(ControlKey, Policy)>)

  /** The peer an operation adds or removes. */
  function PeerOf(op: Op): Option<PeerId> {
    match op.payload
    case Change(AddPeer(p)) => Some(p)
    case Change(RemovePeer(p)) => Some(p)
    case _ => None
  }

  predicate SetsPolicy(op: Op) {
    op.payload.Change? && op.payload.control.SetPolicy?
  }

  predicate Wins(controls: Controls, peer: PeerId, key: ControlKey) {
    peer !in controls || KeyLess(controls[peer].0, key)
  }

  predicate PolicyWins(current: Option<(ControlKey, Policy)>, key: ControlKey) {
    current.None? || KeyLess(current.value.0, key)
  }

  function SetMembership(st: TopicState, peer: PeerId, key: ControlKey, isMember: bool): TopicState {
    if Wins(st.controls, peer, key) then
      st.(controls := st.controls[peer := (key, isMember)],
          members := if isMember then st.members + {peer} else st.members - {peer})
    else
      st
  }

  function SetPolicyControl(st: TopicState, key: ControlKey, policy: Policy): TopicState {
    if PolicyWins(st.policyControl, key) then
      st.(policyControl := Some((key, policy)), policy := policy)
    else
      st
  }

  function ApplyControl(st: TopicState, op: Op): TopicState
    requires op.payload.Change?
  {
    match op.payload.control
    case AddPeer(p) => SetMembership(st, p, KeyOf(op), true)
    case RemovePeer(p) => SetMembership(st, p, KeyOf(op), false)
    case SetPolicy(policy) => SetPolicyControl(st, KeyOf(op), policy)
  }

  function InitialState(op: Op): TopicState
    requires op.payload.Genesis?
  {
    TopicState(op.payload.eventType, op.id, op.payload.initialPeers, op.payload.policy, map[], None)
  }

  // ---- what the state at a set of operations is ----

  ghost predicate PeersDecided(log: Log, s: set<OpId>, controls: Controls)
    requires s <= log.Keys
  {
    && (forall p <- controls ::
          var x := controls[p].0.id;
          && x in s
          && PeerOf(log[x]) == Some(p)
          && controls[p] == (KeyOf(log[x]), log[x].payload.control.AddPeer?))
    && (forall y <- s :: PeerOf(log[y]).Some? ==>
          && PeerOf(log[y]).value in controls
          && !KeyLess(controls[PeerOf(log[y]).value].0, KeyOf(log[y])))
  }

  ghost predicate PolicyDecided(log: Log, s: set<OpId>, control: Option<(ControlKey, Policy)>)
    requires s <= log.Keys
  {
    && (control.Some? ==>
          var x := control.value.0.id;
          && x in s
          && SetsPolicy(log[x])
          && control.value == (KeyOf(log[x]), log[x].payload.control.policy))
    && (forall y <- s :: SetsPolicy(log[y]) ==>
          control.Some? && !KeyLess(control.value.0, KeyOf(log[y])))
  }

  ghost predicate GenesisDecided(log: Log, s: set<OpId>, id: OpId)
    requires s <= log.Keys
  {
    && id in s
    && log[id].payload.Genesis?
    && forall y <- s :: log[y].payload.Genesis? ==> y == id
  }

  /** The parts a state derives from its genesis and its winning controls. */
  ghost predicate Derived(genesis: Payload, st: TopicState)
    requires genesis.Genesis?
  {
    && st.eventType == genesis.eventType
    && (forall p :: p in st.members <==>
          if p in st.controls then st.controls[p].1 else p in genesis.initialPeers)
    && st.policy == (if st.policyControl.Some? then st.policyControl.value.1 else genesis.policy)
  }

  /** `st` is the topic state after exactly the operations in `s`. */
  ghost predicate IsState(log: Log, s: set<OpId>, st: TopicState)
    requires s <= log.Keys
  {
    && GenesisDecided(log, s, st.genesis)
    && PeersDecided(log, s, st.controls)
    && PolicyDecided(log, s, st.policyControl)
    && Derived(log[st.genesis].payload, st)
  }

  // ---- which control decides ----

  /** Of two controls the one of the later generation is newer; then actor, position and id decide. */
  ghost predicate Newer(a: Op, b: Op) {
    || a.gen > b.gen
    || (a.gen == b.gen && a.actor > b.actor)
    || (a.gen == b.gen && a.actor == b.actor && a.pos > b.pos)
    || (a.gen == b.gen && a.actor == b.actor && a.pos == b.pos && a.id > b.id)
  }

  /** The control recorded for a peer is the newest there is. */
  lemma NewestControlDecides(log: Log, s: set<OpId>, st: TopicState, y: OpId)
    requires Closed(log) && s <= log.Keys && IsState(log, s, st) && y in s && PeerOf(log[y]).Some?
    ensures
      var p := PeerOf(log[y]).value;
      && p in st.controls
      && var x := st.controls[p].0.id;
         && x in s && PeerOf(log[x]) == Some(p) && (x == y || Newer(log[x], log[y]))
         && (p in st.members <==> log[x].payload == Change(AddPeer(p)))
  {
  }

  lemma NewestPolicyDecides(log: Log, s: set<OpId>, st: TopicState, y: OpId)
    requires Closed(log) && s <= log.Keys && IsState(log, s, st) && y in s && SetsPolicy(log[y])
    ensures
      && st.policyControl.Some?
      && var x := st.policyControl.value.0.id;
         && x in s && (x == y || Newer(log[x], log[y]))
         && log[x].payload == Change(SetPolicy(st.policy))
  {
  }

  /** A control overrides those of its peer it stands on. */
  lemma ControlOverrides(log: Log, s: set<OpId>, st: TopicState, x: OpId, y: OpId)
    requires Closed(log) && s <= log.Keys && IsState(log, s, st) && x in s && y in s && Ancestor(log, y, x)
    ensures PeerOf(log[x]).Some? && PeerOf(log[y]) == PeerOf(log[x]) ==>
      PeerOf(log[x]).value in st.controls && st.controls[PeerOf(log[x]).value].0.id != y
    ensures SetsPolicy(log[x]) && SetsPolicy(log[y]) ==>
      st.policyControl.Some? && st.policyControl.value.0.id != y
  {
    hide IsState, Newer;
    AncestorIsLower(log, y, x);
    if PeerOf(log[x]).Some? && PeerOf(log[y]) == PeerOf(log[x]) {
      NewestControlDecides(log, s, st, x);
      NotNewer(log[y], log[x]);
    }
    if SetsPolicy(log[x]) && SetsPolicy(log[y]) {
      NewestPolicyDecides(log, s, st, x);
      NotNewer(log[y], log[x]);
    }
  }

  lemma NotNewer(a: Op, b: Op)
    requires a.gen < b.gen
    ensures !Newer(a, b)
  {
  }

  /** A removal that stands on every add of its peer takes effect, and so does an add on every removal. */
  lemma LastWordCounts(log: Log, s: set<OpId>, st: TopicState, x: OpId)
    requires Closed(log) && s <= log.Keys && IsState(log, s, st) && x in s && PeerOf(log[x]).Some?
    requires forall y <- s ::
      PeerOf(log[y]) == PeerOf(log[x]) && log[y].payload != log[x].payload ==> Ancestor(log, y, x)
    ensures PeerOf(log[x]).value in st.members <==> log[x].payload.control.AddPeer?
  {
    hide IsState;
    var p := PeerOf(log[x]).value;
    NewestControlDecides(log, s, st, x);
    var w := st.controls[p].0.id;
    if log[w].payload != log[x].payload {
      ControlOverrides(log, s, st, x, w);
    }
  }

  /** Likewise for the policy. */
  lemma LastPolicyCounts(log: Log, s: set<OpId>, st: TopicState, x: OpId)
    requires Closed(log) && s <= log.Keys && IsState(log, s, st) && x in s && SetsPolicy(log[x])
    requires forall y <- s :: SetsPolicy(log[y]) && log[y].payload != log[x].payload ==> Ancestor(log, y, x)
    ensures st.policy == log[x].payload.control.policy
  {
    hide IsState;
    NewestPolicyDecides(log, s, st, x);
    var w := st.policyControl.value.0.id;
    if log[w].payload != log[x].payload {
      ControlOverrides(log, s, st, x, w);
    }
  }

  lemma PeersUnique(log: Log, s: set<OpId>, a: Controls, b: Controls)
    requires s <= log.Keys && PeersDecided(log, s, a) && PeersDecided(log, s, b)
    ensures a == b
  {
  }

  /** The operations alone decide the state: it is a function of the set. */
  lemma StateUnique(log: Log, s: set<OpId>, a: TopicState, b: TopicState)
    requires s <= log.Keys && IsState(log, s, a) && IsState(log, s, b)
    ensures a == b
  {
    PeersUnique(log, s, a.controls, b.controls);
    assert a.policyControl == b.policyControl;
    assert a.members == b.members;
  }

  lemma SameControls(log: Log, s: set<OpId>, t: set<OpId>, st: TopicState)
    requires s <= t <= log.Keys && IsState(log, s, st)
    requires forall x <- t - s :: log[x].payload.Event?
    ensures IsState(log, t, st)
  {
  }

  lemma GenesisState(log: Log, g: OpId)
    requires g in log && log[g].id == g && log[g].payload.Genesis?
    ensures IsState(log, {g}, InitialState(log[g]))
  {
  }

  lemma PeerControl(log: Log, s: set<OpId>, controls: Controls, x: OpId)
    requires s <= log.Keys && PeersDecided(log, s, controls)
    requires x in log && log[x].id == x && PeerOf(log[x]).Some?
    ensures var p, key := PeerOf(log[x]).value, KeyOf(log[x]);
            PeersDecided(log, s + {x},
              if Wins(controls, p, key) then controls[p := (key, log[x].payload.control.AddPeer?)]
              else controls)
  {
  }

  lemma DerivedMembership(initial: Payload, st: TopicState, p: PeerId, key: ControlKey, isMember: bool)
    requires initial.Genesis? && Derived(initial, st)
    ensures Derived(initial, SetMembership(st, p, key, isMember))
  {
  }

  lemma ControlState(log: Log, s: set<OpId>, st: TopicState, x: OpId)
    requires s <= log.Keys && IsState(log, s, st)
    requires x in log && log[x].id == x && log[x].payload.Change?
    ensures IsState(log, s + {x}, ApplyControl(st, log[x]))
  {
    var initial := log[st.genesis].payload;
    match log[x].payload.control
    case AddPeer(p) =>
      PeerControl(log, s, st.controls, x);
      DerivedMembership(initial, st, p, KeyOf(log[x]), true);
    case RemovePeer(p) =>
      PeerControl(log, s, st.controls, x);
      DerivedMembership(initial, st, p, KeyOf(log[x]), false);
    case SetPolicy(_) =>
      assert PeersDecided(log, s + {x}, st.controls);
  }

  /**
   A state whose every winning control lies in `s` is the state at `s` too: nothing
   `s` lacks can have won. This is what lets a clock stand for a walk of history.
   */
  lemma CoveredState(log: Log, s: set<OpId>, t: set<OpId>, st: TopicState)
    requires s <= t <= log.Keys && IsState(log, t, st)
    requires st.genesis in s
    requires forall p <- st.controls :: st.controls[p].0.id in s
    requires st.policyControl.Some? ==> st.policyControl.value.0.id in s
    ensures IsState(log, s, st)
  {
  }

  lemma StateFrame(log: Log, more: Log, s: set<OpId>, st: TopicState)
    requires Extends(log, more) && s <= log.Keys
    ensures s <= more.Keys && (IsState(log, s, st) <==> IsState(more, s, st))
  {
  }

  // ---- merging states of two parts of the history ----

  /** `a` with each peer of `done` at the greater of its two controls. */
  ghost function MergedControls(a: Controls, b: Controls, done: set<PeerId>): Controls
    requires done <= b.Keys
  {
    map p | p in a.Keys + done ::
      if p in done && Wins(a, p, b[p].0) then b[p] else a[p]
  }

  lemma MergedStep(a: Controls, b: Controls, done: set<PeerId>, p: PeerId)
    requires done <= b.Keys && p in b && p !in done
    ensures var m := MergedControls(a, b, done);
            MergedControls(a, b, done + {p}) == if Wins(m, p, b[p].0) then m[p := b[p]] else m
  {
  }

  /** `merged` is `current` with the controls of `done` folded in. */
  ghost predicate Folded(initial: Payload, current: TopicState, incoming: Controls,
                         done: set<PeerId>, merged: TopicState)
    requires initial.Genesis? && done <= incoming.Keys
  {
    && Derived(initial, merged)
    && merged.controls == MergedControls(current.controls, incoming, done)
    && merged.genesis == current.genesis
    && merged.policyControl == current.policyControl
  }

  lemma FoldStep(initial: Payload, current: TopicState, incoming: Controls,
                 done: set<PeerId>, merged: TopicState, p: PeerId)
    requires initial.Genesis? && done <= incoming.Keys && p in incoming && p !in done
    requires Folded(initial, current, incoming, done, merged)
    ensures Folded(initial, current, incoming, done + {p},
                   SetMembership(merged, p, incoming[p].0, incoming[p].1))
  {
    MergedStep(current.controls, incoming, done, p);
    DerivedMembership(initial, merged, p, incoming[p].0, incoming[p].1);
  }

  /** Folds the membership controls of another state into `current`. */
  method FoldControls(current: TopicState, incoming: Controls, ghost initial: Payload)
    returns (merged: TopicState)
    requires initial.Genesis? && Derived(initial, current)
    ensures Folded(initial, current, incoming, incoming.Keys, merged)
  {
    merged := current;
    var todo := incoming.Keys;
    FoldStart(initial, current, incoming);
    ghost var done: set<PeerId> := {};
    while todo != {}
      invariant done !! todo && done + todo == incoming.Keys
      invariant Folded(initial, current, incoming, done, merged)
      decreases todo
    {
      var p :| p in todo;
      FoldStep(initial, current, incoming, done, merged, p);
      merged := SetMembership(merged, p, incoming[p].0, incoming[p].1);
      todo, done := todo - {p}, done + {p};
    }
    assert done == incoming.Keys;
  }

  lemma FoldStart(initial: Payload, current: TopicState, incoming: Controls)
    requires initial.Genesis? && Derived(initial, current)
    ensures Folded(initial, current, incoming, {}, current)
  {
  }

  /** The state after both sets of operations, from the states after each. */
  method MergeState(current: TopicState, incoming: TopicState,
                    ghost log: Log, ghost s: set<OpId>, ghost t: set<OpId>)
    returns (merged: TopicState)
    requires s <= log.Keys && t <= log.Keys
    requires IsState(log, s, current) && IsState(log, t, incoming)
    requires current.genesis == incoming.genesis
    ensures IsState(log, s + t, merged)
  {
    merged := FoldControls(current, incoming.controls, log[current.genesis].payload);
    MergedPeers(log, s, t, current.controls, incoming.controls);
    if incoming.policyControl.Some? {
      var (key, policy) := incoming.policyControl.value;
      merged := SetPolicyControl(merged, key, policy);
    }
    MergedPolicy(log, s, t, current, incoming);
  }

  lemma MergedPeers(log: Log, s: set<OpId>, t: set<OpId>, a: Controls, b: Controls)
    requires s <= log.Keys && t <= log.Keys
    requires PeersDecided(log, s, a) && PeersDecided(log, t, b)
    ensures PeersDecided(log, s + t, MergedControls(a, b, b.Keys))
  {
    var r := MergedControls(a, b, b.Keys);
    forall p | p in r
      ensures r[p].0.id in s + t && PeerOf(log[r[p].0.id]) == Some(p)
      ensures r[p] == (KeyOf(log[r[p].0.id]), log[r[p].0.id].payload.control.AddPeer?)
    {
      assert r[p] == (if p in b && Wins(a, p, b[p].0) then b[p] else a[p]);
    }
    forall y | y in s + t && PeerOf(log[y]).Some?
      ensures PeerOf(log[y]).value in r
      ensures !KeyLess(r[PeerOf(log[y]).value].0, KeyOf(log[y]))
    {
      var p := PeerOf(log[y]).value;
      assert r[p] == (if p in b && Wins(a, p, b[p].0) then b[p] else a[p]);
    }
  }

  lemma MergedPolicy(log: Log, s: set<OpId>, t: set<OpId>, a: TopicState, b: TopicState)
    requires s <= log.Keys && t <= log.Keys
    requires PolicyDecided(log, s, a.policyControl) && PolicyDecided(log, t, b.policyControl)
    ensures PolicyDecided(log, s + t,
              if b.policyControl.Some? && PolicyWins(a.policyControl, b.policyControl.value.0)
              then b.policyControl else a.policyControl)
  {
  }
}
