/**
 Replicas that receive one history converge: the order and the batching of what
 arrives leave no trace.
 */
module Convergence {
  import opened Prelude
  import opened Dag
  import opened Validity
  import opened Store
  import opened Projection
  import opened Oplog
  import Topology

  ghost function Restrict(world: Log, s: set<OpId>): Log
    requires s <= world.Keys
  {
    map id | id in s :: world[id]
  }

  /** Every dependency-closed part of a good history is good. */
  lemma PartIsGood(world: Log, s: set<OpId>)
    requires Good(world) && DownClosed(world, s)
    ensures Good(Restrict(world, s))
  {
    var part := Restrict(world, s);
    assert Closed(part) && Extends(part, world);
    forall id | id in part
      ensures ValidAt(part, part[id])
    {
      assert ValidAt(world, world[id]);
      ValidFrame(part, world, part[id]);
    }
  }

  /** The ids the first `n` batches bring. */
  ghost function Arrived(batches: seq<seq<Op>>, n: nat): (s: set<OpId>)
    requires n <= |batches|
    ensures n > 0 ==> s == Arrived(batches, n - 1) + Topology.Emitted(batches[n - 1])
  {
    if n == 0 then {} else Arrived(batches, n - 1) + Topology.Emitted(batches[n - 1])
  }

  /**
   A causal delivery of `world`: after each batch, what arrived is dependency-closed.
   Inside a batch operations may come in any order, and any may come again later.
   */
  ghost predicate Delivers(world: Log, batches: seq<seq<Op>>) {
    && (forall i, op :: 0 <= i < |batches| && op in batches[i] ==> op.id in world && world[op.id] == op)
    && (forall n: nat :: n <= |batches| ==> DownClosed(world, Arrived(batches, n)))
    && Arrived(batches, |batches|) == world.Keys
  }

  /** The part of the history the first `n` batches bring. */
  ghost function Part(world: Log, batches: seq<seq<Op>>, n: nat): Log
    requires n <= |batches| && Delivers(world, batches)
  {
    assert DownClosed(world, Arrived(batches, n));
    Restrict(world, Arrived(batches, n))
  }

  /** Each batch extends what arrived before to the next good part of the history. */
  lemma NextPart(world: Log, batches: seq<seq<Op>>, n: nat, v: View)
    requires Good(world) && Delivers(world, batches) && n < |batches| && Complete(v, Part(world, batches, n))
    ensures Offered(v, Part(world, batches, n), batches[n], Part(world, batches, n + 1))
    ensures AuthenticBatch(Part(world, batches, n), batches[n])
  {
    hide Good, IsUnion, AuthenticBatch, Complete, Mends;
    CompleteMends(v, Part(world, batches, n), Topology.Emitted(batches[n]));
    assert DownClosed(world, Arrived(batches, n + 1));
    PartIsGood(world, Arrived(batches, n + 1));
    NextUnion(world, batches, n);
  }

  lemma NextUnion(world: Log, batches: seq<seq<Op>>, n: nat)
    requires Delivers(world, batches) && n < |batches|
    ensures IsUnion(Part(world, batches, n + 1), Part(world, batches, n), batches[n])
    ensures AuthenticBatch(Part(world, batches, n), batches[n])
  {
    hide DownClosed, Topology.Emitted;
    ArrivedWithin(world, batches, n);
    ArrivedWithin(world, batches, n + 1);
    assert Arrived(batches, n + 1) == Arrived(batches, n) + Topology.Emitted(batches[n]);
    forall op | op in batches[n]
      ensures op.id in Topology.Emitted(batches[n])
    {
      EmittedOne(batches[n], op);
    }
  }

  lemma ArrivedWithin(world: Log, batches: seq<seq<Op>>, n: nat)
    requires Delivers(world, batches) && n <= |batches|
    ensures Arrived(batches, n) <= world.Keys
  {
    assert DownClosed(world, Arrived(batches, n));
  }

  lemma EmittedOne(ops: seq<Op>, op: Op)
    requires op in ops
    ensures op.id in Topology.Emitted(ops)
  {
  }

  lemma Parts(world: Log, batches: seq<seq<Op>>)
    requires Delivers(world, batches)
    ensures Part(world, batches, 0) == map[] && Part(world, batches, |batches|) == world
  {
  }

  /** A fresh replica that receives every batch, and whether it accepted them all. */
  method Replay(batches: seq<seq<Op>>, refuses: Op -> bool, ghost world: Log)
    returns (v: View, accepted: bool)
    requires Good(world) && Delivers(world, batches)
    ensures accepted
    ensures Represents(v, world) && Complete(v, world)
  {
    hide Good, Represents, Delivers, Grew, AuthenticBatch, Offered, Settles, AddsWhole, EmptyView;
    hide Sound, Complete, Part;
    var replica := new Oplog();
    EmptyRepresents();
    Parts(world, batches);
    accepted := true;
    for n := 0 to |batches|
      invariant accepted && fresh(replica) && replica.Valid()
      invariant replica.log == Part(world, batches, n) && Complete(replica.view, replica.log)
    {
      NextPart(world, batches, n, replica.view);
      var r, _ := replica.AdmitBatch(batches[n], false, refuses, Part(world, batches, n + 1));
      accepted := accepted && r.Ok?;
    }
    v := replica.view;
    SoundRepresents(v, replica.log, replica.cache);
  }

  lemma SoundRepresents(v: View, log: Log, cached: Projections)
    requires Sound(v, log, cached)
    ensures Represents(v, log)
  {
  }

  /**
   Convergence: two replicas that receive one history, each in any causal order and
   batching, refuse nothing and end with identical stores: heads, members, policy,
   controls, actor tips and every observed clock.
   */
  method Converge(a: seq<seq<Op>>, b: seq<seq<Op>>, refuses: Op -> bool, ghost world: Log)
    returns (va: View, vb: View, accepted: bool)
    requires Good(world) && Delivers(world, a) && Delivers(world, b)
    ensures accepted && va == vb
    ensures Represents(va, world) && Complete(va, world)
  {
    hide Good, Represents, Delivers, Complete;
    var ra, rb;
    va, ra := Replay(a, refuses, world);
    vb, rb := Replay(b, refuses, world);
    accepted := ra && rb;
    StoreIsFunctionOfHistory(va, vb, world);
  }
}
