/**
 The topic state at an operation's dependencies, computed by walking back from them
 and stopping at states already known.
 */
module Projection {
  import opened Prelude
  import opened Dag
  import opened Membership
  import opened Validity
  import opened Store

  datatype Error =
    | ActorAuthorMismatch | ActorPrevMismatch | ActorFork | ActorSeqGap
    | InvalidGenesis | TopicNotFound | EventTypeMismatch | NotTopicMember
    | InvalidOpId | GenerationMismatch | MissingDependency(id: OpId)
    | AdmissionConflict | TopicFull | CyclicBatch | PendingRefused

  type Projections = map<OpId, TopicState>

  ghost predicate StateAtOp(log: Log, id: OpId, st: TopicState)
    requires Closed(log)
  {
    id in log && IsState(log, Below(log, {id}), st)
  }

  /** Every cached state is the state after its operation and all it depends on. */
  ghost predicate ProjectionsMatch(log: Log, cached: Projections)
    requires Closed(log)
  {
    forall id {:trigger cached[id]} :: id in cached ==> StateAtOp(log, id, cached[id])
  }

  lemma ProjectionsFrame(log: Log, more: Log, cached: Projections)
    requires Closed(log) && Closed(more) && Extends(log, more) && ProjectionsMatch(log, cached)
    ensures ProjectionsMatch(more, cached)
  {
    forall id | id in cached
      ensures StateAtOp(more, id, cached[id])
    {
      BelowFrame(log, more, {id});
      StateFrame(log, more, Below(log, {id}), cached[id]);
    }
  }

  function Ids(ops: seq<Op>): (s: set<OpId>) {
    set op <- ops :: op.id
  }

  /** `ops` are operations of the history. */
  ghost predicate Recorded(log: Log, ops: seq<Op>) {
    forall op <- ops :: op.id in log && log[op.id] == op
  }

  /** The members a genesis and its winning controls leave. */
  function MembersOf(initial: set<PeerId>, controls: Controls): (members: set<PeerId>)
    ensures forall p :: p in members <==> if p in controls then controls[p].1 else p in initial
  {
    (set p <- initial | p !in controls || controls[p].1) + (set p <- controls | controls[p].1)
  }

  /** What a fold over operations has met so far. */
  datatype Gathered = Gathered(
    genesis: Option<Op>, controls: Controls, policyControl: Option<(ControlKey, Policy)>)

  function SetControl(controls: Controls, peer: PeerId, key: ControlKey, isMember: bool): Controls {
    if Wins(controls, peer, key) then controls[peer := (key, isMember)] else controls
  }

  function Gather(g: Gathered, op: Op): Gathered {
    match op.payload
    case Genesis(_, _, _) => g.(genesis := Some(op))
    case Event(_) => g
    case Change(AddPeer(p)) => g.(controls := SetControl(g.controls, p, KeyOf(op), true))
    case Change(RemovePeer(p)) => g.(controls := SetControl(g.controls, p, KeyOf(op), false))
    case Change(SetPolicy(policy)) =>
      if PolicyWins(g.policyControl, KeyOf(op)) then g.(policyControl := Some((KeyOf(op), policy))) else g
  }

  ghost predicate Gathers(log: Log, s: set<OpId>, g: Gathered)
    requires s <= log.Keys
  {
    && PeersDecided(log, s, g.controls)
    && PolicyDecided(log, s, g.policyControl)
    && (g.genesis.Some? ==>
          && g.genesis.value.payload.Genesis?
          && g.genesis.value.id in s
          && log[g.genesis.value.id] == g.genesis.value)
    && (g.genesis.None? ==> forall x <- s :: !log[x].payload.Genesis?)
  }

  lemma GatherStep(log: Log, s: set<OpId>, g: Gathered, op: Op)
    requires s <= log.Keys && Gathers(log, s, g) && op.id in log && log[op.id] == op
    ensures Gathers(log, s + {op.id}, Gather(g, op))
  {
    if PeerOf(op).Some? {
      PeerControl(log, s, g.controls, op.id);
    }
  }

  /** Folds a genesis and controls met in any order into one state. */
  method Materialize(ops: seq<Op>, ghost log: Log) returns (r: Result<TopicState, Error>)
    requires OneGenesis(log) && Recorded(log, ops)
    ensures r.Ok? ==> Ids(ops) <= log.Keys && IsState(log, Ids(ops), r.value)
    ensures r.Ok? <==> exists x :: x in Ids(ops) && x in log && log[x].payload.Genesis?
  {
    hide Gathers;
    var g := Gathered(None, map[], None);
    ghost var met: set<OpId> := {};
    assert Gathers(log, met, g) by { NothingGathered(log); }
    for i := 0 to |ops|
      invariant met == Ids(ops[..i]) && met <= log.Keys
      invariant Gathers(log, met, g)
    {
      var op := ops[i];
      assert op in ops && log[op.id] == op;
      assert ops[..i + 1] == ops[..i] + [op];
      if op.payload.Genesis? && g.genesis.Some? && g.genesis.value.id != op.id {
        assert false by { GatheredGenesis(log, met, g); }
        return Err(InvalidGenesis);
      }
      GatherStep(log, met, g, op);
      g := Gather(g, op);
      met := met + {op.id};
    }
    assert ops[..|ops|] == ops;
    GatheredGenesis(log, met, g);
    if g.genesis.None? {
      return Err(TopicNotFound);
    }
    r := Ok(StateOf(g));
    assert IsState(log, met, r.value) by { GatheredState(log, met, g); }
  }

  function StateOf(g: Gathered): TopicState
    requires g.genesis.Some? && g.genesis.value.payload.Genesis?
  {
    var genesis := g.genesis.value.payload;
    TopicState(
      genesis.eventType, g.genesis.value.id, MembersOf(genesis.initialPeers, g.controls),
      if g.policyControl.Some? then g.policyControl.value.1 else genesis.policy,
      g.controls, g.policyControl)
  }

  lemma NothingGathered(log: Log)
    ensures Gathers(log, {}, Gathered(None, map[], None))
  {
  }

  lemma GatheredGenesis(log: Log, s: set<OpId>, g: Gathered)
    requires s <= log.Keys && Gathers(log, s, g)
    ensures g.genesis.Some? ==>
      && g.genesis.value.id in s
      && log[g.genesis.value.id] == g.genesis.value
      && g.genesis.value.payload.Genesis?
    ensures g.genesis.None? ==> forall x <- s :: !log[x].payload.Genesis?
  {
  }

  lemma GatheredState(log: Log, s: set<OpId>, g: Gathered)
    requires OneGenesis(log) && s <= log.Keys && Gathers(log, s, g) && g.genesis.Some?
    ensures g.genesis.value.payload.Genesis? && IsState(log, s, StateOf(g))
  {
  }

  // ---- merging known states ----

  lemma SameGenesis(log: Log, s: set<OpId>, t: set<OpId>, a: TopicState, b: TopicState)
    requires OneGenesis(log) && s <= log.Keys && t <= log.Keys
    requires IsState(log, s, a) && IsState(log, t, b)
    ensures a.genesis == b.genesis
  {
  }

  lemma SameStateUnion(log: Log, s: set<OpId>, t: set<OpId>, st: TopicState)
    requires s <= log.Keys && t <= log.Keys && IsState(log, s, st) && IsState(log, t, st)
    ensures IsState(log, s + t, st)
  {
  }

  /** The state after everything the operations in `known` cover, from their cached states. */
  method MergeStates(known: set<OpId>, cached: Projections, ghost log: Log)
    returns (r: Result<TopicState, Error>)
    requires Closed(log) && OneGenesis(log) && ProjectionsMatch(log, cached) && known <= cached.Keys
    ensures r.Ok? <==> known != {}
    ensures r.Ok? ==> IsState(log, Below(log, known), r.value)
  {
    hide IsState, OneGenesis, Below;
    var merged: Option<TopicState> := None;
    var todo := known;
    ghost var done: set<OpId> := {};
    while todo != {}
      invariant done + todo == known
      invariant merged.None? <==> done == {}
      invariant merged.Some? ==> IsState(log, Below(log, done), merged.value)
      decreases todo
    {
      var id :| id in todo;
      var incoming := cached[id];
      assert StateAtOp(log, id, incoming);
      BelowUnion(log, done, {id});
      if merged.None? {
        assert done + {id} == {id};
        merged := Some(incoming);
      } else {
        var current := merged.value;
        SameGenesis(log, Below(log, done), Below(log, {id}), current, incoming);
        var shared: bool := *;
        if shared && current == incoming {
          // One shared allocation: nothing to merge.
          SameStateUnion(log, Below(log, done), Below(log, {id}), current);
        } else {
          current := MergeState(current, incoming, log, Below(log, done), Below(log, {id}));
          merged := Some(current);
        }
      }
      done := done + {id};
      todo := todo - {id};
    }
    assert done == known;
    r := if merged.Some? then Ok(merged.value) else Err(TopicNotFound);
  }

  /** `st` with the controls of `folded` applied. */
  method ApplyFolded(st: TopicState, folded: seq<Op>, ghost log: Log, ghost s: set<OpId>)
    returns (r: Result<TopicState, Error>)
    requires OneGenesis(log) && Recorded(log, folded) && s <= log.Keys && IsState(log, s, st)
    ensures r.Ok? && Ids(folded) <= log.Keys && IsState(log, s + Ids(folded), r.value)
  {
    hide IsState;
    var state := st;
    ghost var met: set<OpId> := {};
    assert s + met == s;
    for i := 0 to |folded|
      invariant met == Ids(folded[..i]) && met <= log.Keys
      invariant IsState(log, s + met, state)
    {
      var op := folded[i];
      assert op in folded && log[op.id] == op;
      assert folded[..i + 1] == folded[..i] + [op];
      assert s + (met + {op.id}) == (s + met) + {op.id};
      match op.payload {
        case Genesis(_, _, _) =>
          StateGenesis(log, s + met, state, op);
          if op.id != state.genesis {
            return Err(InvalidGenesis);
          }
          assert s + (met + {op.id}) == s + met by { StateHoldsGenesis(log, s + met, state); }
        case Change(_) =>
          ControlState(log, s + met, state, op.id);
          state := ApplyControl(state, op);
        case Event(_) =>
          SameControls(log, s + met, s + met + {op.id}, state);
      }
      met := met + {op.id};
    }
    assert folded[..|folded|] == folded;
    r := Ok(state);
  }

  lemma StateGenesis(log: Log, s: set<OpId>, st: TopicState, op: Op)
    requires OneGenesis(log) && s <= log.Keys && IsState(log, s, st)
    requires op.id in log && log[op.id] == op && op.payload.Genesis?
    ensures op.id == st.genesis
  {
  }

  lemma StateHoldsGenesis(log: Log, s: set<OpId>, st: TopicState)
    requires s <= log.Keys && IsState(log, s, st)
    ensures st.genesis in s
  {
  }

  // ---- the walk ----

  /** A finished walk from `deps` met their whole ancestry, itself or through known states. */
  lemma WalkCovers(log: Log, deps: set<OpId>, seen: set<OpId>, known: set<OpId>)
    requires Closed(log) && seen <= Below(log, deps) && known <= seen && deps <= seen
    requires forall x <- seen - known :: log[x].deps <= seen
    requires deps <= log.Keys
    ensures Below(log, deps) == (seen - known) + Below(log, known)
  {
    BelowIsClosed(log, deps);
    BelowIsClosed(log, known);
    var u := (seen - known) + Below(log, known);
    assert seen <= u;
    forall x | x in u
      ensures log[x].deps <= u
    {
    }
    BelowIsLeast(log, deps, u);
    BelowIsLeast(log, known, Below(log, deps));
  }

  lemma FoldedDecides(log: Log, s: set<OpId>, t: set<OpId>, folded: set<OpId>, st: TopicState)
    requires s <= log.Keys && t <= log.Keys && folded <= t && IsState(log, s + folded, st)
    requires forall x <- t - folded :: log[x].payload.Event?
    ensures IsState(log, t + s, st)
  {
  }

  /** A walk back from `deps` met `seen`, stopping at `known`, and gathered `folded`. */
  ghost predicate Walked(log: Log, deps: set<OpId>, walk: set<OpId>,
                         seen: set<OpId>, known: set<OpId>, folded: seq<Op>)
    requires Closed(log)
  {
    && known <= seen <= Below(log, deps)
    && walk <= Below(log, deps)
    && deps <= seen + walk
    && (forall x <- seen - known :: log[x].deps <= seen + walk)
    && Recorded(log, folded)
    && Ids(folded) <= seen - known
    && (forall x <- seen - known :: x in Ids(folded) || log[x].payload.Event?)
  }

  lemma WalkKnown(log: Log, deps: set<OpId>, walk: set<OpId>,
                  seen: set<OpId>, known: set<OpId>, folded: seq<Op>, id: OpId)
    requires Closed(log) && Walked(log, deps, walk, seen, known, folded) && id in walk && id !in seen
    ensures Walked(log, deps, walk - {id}, seen + {id}, known + {id}, folded)
  {
  }

  lemma WalkSeen(log: Log, deps: set<OpId>, walk: set<OpId>,
                 seen: set<OpId>, known: set<OpId>, folded: seq<Op>, id: OpId)
    requires Closed(log) && Walked(log, deps, walk, seen, known, folded) && id in walk && id in seen
    ensures Walked(log, deps, walk - {id}, seen, known, folded)
  {
  }

  lemma WalkStep(log: Log, deps: set<OpId>, walk: set<OpId>,
                 seen: set<OpId>, known: set<OpId>, folded: seq<Op>, id: OpId)
    requires Closed(log) && deps <= log.Keys
    requires Walked(log, deps, walk, seen, known, folded) && id in walk && id !in seen
    ensures id in log
    ensures Walked(log, deps, walk - {id} + log[id].deps, seen + {id}, known,
                   if log[id].payload.Event? then folded else folded + [log[id]])
  {
    BelowIsClosed(log, deps);
    FoldedIds(folded, log[id]);
  }

  /** Walks back from `deps` to the states already known. */
  method Walk(v: View, deps: set<OpId>, cached: Projections, ghost log: Log)
    returns (ok: Result<(), Error>, ghost seen: set<OpId>, known: set<OpId>, folded: seq<Op>)
    requires Closed(log) && OpsMatch(v.ops, log) && MetasMatch(v.meta, log) && deps <= log.Keys
    ensures ok.Ok? ==> known <= cached.Keys && Walked(log, deps, {}, seen, known, folded)
    ensures Intact(v, log, deps) ==> ok.Ok?
  {
    hide Walked;
    seen, known, folded := {}, {}, [];
    var visited: set<OpId>, walk := {}, deps;
    assert Walked(log, deps, walk, seen, known, folded) by { WalkStarts(log, deps); }
    while walk != {}
      invariant Walked(log, deps, walk, seen, known, folded)
      invariant visited == seen && known <= cached.Keys
      decreases Below(log, deps) - seen, walk
    {
      var id :| id in walk;
      assert seen <= Below(log, deps) && walk <= Below(log, deps) by {
        WalkedWithin(log, deps, walk, seen, known, folded);
      }
      if id in visited {
        WalkSeen(log, deps, walk, seen, known, folded, id);
        walk := walk - {id};
      } else if id in cached {
        WalkKnown(log, deps, walk, seen, known, folded, id);
        walk, visited, seen, known := walk - {id}, visited + {id}, seen + {id}, known + {id};
      } else {
        if id !in v.meta || id !in v.ops {
          ok := Err(MissingDependency(id));
          return;
        }
        WalkStep(log, deps, walk, seen, known, folded, id);
        assert v.meta[id].deps == log[id].deps && v.ops[id] == log[id];
        walk, visited, seen := walk - {id} + v.meta[id].deps, visited + {id}, seen + {id};
        if !v.ops[id].payload.Event? {
          folded := folded + [v.ops[id]];
        }
      }
    }
    ok := Ok(());
  }

  lemma WalkStarts(log: Log, deps: set<OpId>)
    requires Closed(log) && deps <= log.Keys
    ensures Walked(log, deps, deps, {}, {}, [])
  {
  }

  lemma WalkedWithin(log: Log, deps: set<OpId>, walk: set<OpId>,
                     seen: set<OpId>, known: set<OpId>, folded: seq<Op>)
    requires Closed(log) && Walked(log, deps, walk, seen, known, folded)
    ensures known <= seen <= Below(log, deps) && walk <= Below(log, deps)
    ensures Recorded(log, folded) && Ids(folded) <= seen - known
  {
  }

  /** What a finished walk gathered decides the state at `deps`. */
  lemma WalkDecides(log: Log, deps: set<OpId>, seen: set<OpId>, known: set<OpId>,
                    folded: seq<Op>, st: TopicState)
    requires Closed(log) && deps <= log.Keys && Walked(log, deps, {}, seen, known, folded)
    requires Ids(folded) <= log.Keys && IsState(log, Below(log, known) + Ids(folded), st)
    ensures IsState(log, Below(log, deps), st)
  {
    hide IsState, Below;
    WalkCovers(log, deps, seen, known);
    FoldedDecides(log, Below(log, known), seen - known, Ids(folded), st);
  }

  lemma WalkMetGenesis(log: Log, deps: set<OpId>, seen: set<OpId>, folded: seq<Op>)
    requires Good(log) && deps <= log.Keys && Walked(log, deps, {}, seen, {}, folded)
    ensures deps != {} ==> exists x :: x in Ids(folded) && x in log && log[x].payload.Genesis?
    ensures deps == {} ==> Ids(folded) == {}
  {
    WalkCovers(log, deps, seen, {});
    BelowNothing(log);
    if deps != {} {
      BelowIsClosed(log, deps);
      var x :| x in deps;
      var g := GenesisBelow(log, Below(log, deps), x);
      assert g in Ids(folded);
    }
  }

  /**
   The state the whole ancestry of `deps` decides, whatever is cached. Below a cached id
   nothing is read.
   */
  method ProjectMembership(v: View, deps: set<OpId>, cached: Projections, ghost log: Log)
    returns (r: Result<TopicState, Error>, kept: Projections)
    requires Represents(v, log) && deps <= log.Keys && ProjectionsMatch(log, cached)
    ensures ProjectionsMatch(log, kept)
    ensures r.Ok? ==> IsState(log, Below(log, deps), r.value)
    ensures deps == {} ==> r.Err?
    ensures deps != {} && Intact(v, log, deps) ==> r.Ok?
  {
    hide IsState, IndexesMatch, StateMatches, Below, Walked, MetasMatch, OpsMatch, Ids, OneGenesis;
    kept := cached;
    if deps != {} {
      var dep :| dep in deps;
      if deps == {dep} && dep in cached {
        assert StateAtOp(log, dep, cached[dep]);
        return Ok(cached[dep]), cached;
      }
    }
    var ok, seen, known, folded := Walk(v, deps, cached, log);
    if ok.Err? {
      return Err(ok.error), cached;
    }
    WalkedWithin(log, deps, {}, seen, known, folded);
    if known == {} {
      BelowNothing(log);
      WalkMetGenesis(log, deps, seen, folded);
      r := Materialize(folded, log);
      assert Below(log, known) + Ids(folded) == Ids(folded);
    } else {
      r := MergeStates(known, cached, log);
      r := ApplyFolded(r.value, folded, log, Below(log, known));
      assert deps != {} by { BelowNothing(log); }
    }
    if r.Ok? {
      WalkDecides(log, deps, seen, known, folded, r.value);
      if deps != {} {
        var dep :| dep in deps;
        if deps == {dep} {
          kept := map id | id in cached && id !in known :: cached[id];
          if * {
            // Within the byte budget of kept states.
            kept := kept[dep := r.value];
          }
        }
      }
    }
  }

  lemma FoldedIds(folded: seq<Op>, op: Op)
    ensures Ids(folded + [op]) == Ids(folded) + {op.id}
  {
  }

  lemma BelowNothing(log: Log)
    requires Closed(log)
    ensures Below(log, {}) == {}
  {
  }
}
