/**
 The integrity scan over the store it scans: admission creates no hole, and a topic whose
 verdict is intact is undamaged, so its history reads do not fail.
 */
module Holes {
  import opened Prelude
  import opened Dag
  import opened Membership
  import opened Validity
  import opened Store
  import opened Projection
  import opened IntegrityScan
  import O = Oplog
  import I = Inspections
  import P = Paging
  import G = Genesis
  import L = LocalWrites

  /** What a scan sees of a stored topic: the indexed ids are the listed ones. */
  function SnapOf(v: View): Snap {
    Snap(v.index.Values, map id <- v.meta :: Position(v.meta[id].gen, v.meta[id].deps), v.ops.Keys)
  }

  lemma Listed(v: View, log: Log)
    requires Represents(v, log)
    ensures v.index.Values == log.Keys
    ensures forall x <- v.meta :: x in log && Deps(SnapOf(v), x) == log[x].deps && v.meta[x].gen == log[x].gen
    ensures forall x :: Resolvable(SnapOf(v), x) <==> O.Present(v, x)
  {
    hide ForkFree, OneGenesis, ValidAt, OpsMatch, TipsMatch, ChildrenMatch, HeadsMatch;
    hide MaxGenMatches, StateMatches, IsClock;
    forall x | x in log
      ensures x in v.index.Values
    {
      assert v.index[(log[x].actor, log[x].pos)] == x;
    }
    forall x | x in v.meta
      ensures x in log && v.meta[x].deps == log[x].deps && v.meta[x].gen == log[x].gen
    {
      assert MetaMatches(log, v.meta[x]);
    }
  }

  /** What admission and repair add never makes a hole: the scanned snapshot only grows. */
  lemma AdmissionGrows(v: View, log: Log, v': View, log': Log)
    requires Represents(v, log) && Represents(v', log') && O.AddsWhole(v, log, v', log')
    ensures Grows(SnapOf(v), SnapOf(v'))
  {
    hide Represents, Resolvable, Deps, SnapOf, Clean;
    Listed(v, log);
    Listed(v', log');
    SnapHas(v);
    SnapHas(v');
    forall x | x in log' && (x !in log || (x in v'.meta && x !in v.meta))
      ensures forall d <- Deps(SnapOf(v'), x) :: Resolvable(SnapOf(v'), d)
      ensures x !in log ==> Clean(SnapOf(v'), x)
    {
      AddedDeps(v', log', x);
    }
  }

  lemma SnapHas(v: View)
    ensures SnapOf(v).ids == v.index.Values && SnapOf(v).records == v.ops.Keys && SnapOf(v).meta.Keys == v.meta.Keys
    ensures forall x <- v.meta :: SnapOf(v).meta[x] == Position(v.meta[x].gen, Deps(SnapOf(v), x))
  {
  }

  lemma AddedDeps(v: View, log: Log, x: OpId)
    requires Represents(v, log) && x in log && O.MissingDeps(v, log[x]) == {}
    ensures forall d <- Deps(SnapOf(v), x) :: Resolvable(SnapOf(v), d)
    ensures O.Present(v, x) ==> Clean(SnapOf(v), x)
  {
    hide Represents, Resolvable;
    Listed(v, log);
    forall d | d in Deps(SnapOf(v), x)
      ensures Resolvable(SnapOf(v), d)
    {
      assert d !in O.MissingDeps(v, log[x]);
    }
  }

  /** A topic without holes misses no record. */
  lemma IntactIsComplete(v: View, log: Log)
    requires Represents(v, log) && forall h :: !IsHole(SnapOf(v), h)
    ensures Complete(v, log)
  {
    hide Good, MetasMatch, IndexesMatch, StateMatches, Resolvable;
    Listed(v, log);
    forall x | x in log
      ensures O.Present(v, x)
    {
      assert !IsHole(SnapOf(v), x);
    }
  }

  /**
   A batch admitted beside the scans: it is taken as admission takes it, and verdicts stay true. A batch
   that replaces the topic puts it under a key of its own.
   */
  method AdmitScanned(node: O.Oplog, scans: I.Inspections, t: TopicId, ops: seq<Op>, reset: bool,
                      refuses: Op -> bool, ghost key: I.Key, ghost world: Log)
    returns (r: Result<set<OpId>, Error>)
    requires node.Valid() && O.AuthenticBatch(node.log, ops) && scans.Valid()
    requires t in scans.now && scans.now[t] == SnapOf(node.view)
    requires reset && t in scans.topics ==> scans.topics[t].key != key
    modifies node, scans
    ensures node.Valid() && scans.Valid() && scans.topics == old(scans.topics)
    ensures scans.now == old(scans.now)[t := SnapOf(node.view)]
    ensures scans.keys == if r.Ok? && reset then old(scans.keys)[t := key] else old(scans.keys)
    ensures r.Err? ==> node.view == old(node.view) && node.log == old(node.log)
    ensures r.Ok? ==> O.Grew(if reset then map[] else old(node.log), ops, node.log, r.value)
    ensures !reset && O.Offered(old(node.view), old(node.log), ops, world) ==> r.Ok? && node.log == world
    ensures reset && O.Offered(EmptyView(), map[], ops, world) ==> r.Ok? && node.log == world
  {
    hide Represents, ProjectionsMatch, Grows, O.AddsWhole, O.AuthenticBatch, O.Grew, O.Settles;
    hide O.Offered, I.Truthful, SnapOf;
    ghost var (v, log) := (node.view, node.log);
    var pending;
    r, pending := node.AdmitBatch(ops, reset, refuses, world);
    if r.Ok? {
      if reset {
        scans.TopicReplaced(t, key, SnapOf(node.view));
      } else {
        AdmissionGrows(v, log, node.view, node.log);
        scans.TopicGrows(t, SnapOf(node.view));
      }
    }
  }

  /** A local write beside the scans: it leaves what local writes leave, and verdicts stay true. */
  method WriteScanned(node: O.Oplog, scans: I.Inspections, t: TopicId, author: PeerId, payload: Payload,
                      name: Op -> OpId, ghost content: OpId -> Op)
    returns (r: Result<Op, Error>)
    requires node.Valid() && L.Names(name, content) && L.Contains(node.log, content) && scans.Valid()
    requires t in scans.now && scans.now[t] == SnapOf(node.view)
    modifies node, scans
    ensures node.Valid() && scans.Valid() && scans.topics == old(scans.topics) && scans.keys == old(scans.keys)
    ensures scans.now == old(scans.now)[t := SnapOf(node.view)]
    ensures L.Wrote(old(node.view), old(node.log), author, payload, name, node.log)
    ensures r.Ok? ==> L.StoredAs(old(node.view), old(node.log), r.value, node.view)
  {
    hide Represents, ProjectionsMatch, Grows, O.AddsWhole, I.Truthful, SnapOf;
    hide L.Wrote, L.WrittenAs, L.StoredAs, L.Names, L.Contains;
    ghost var (v, log) := (node.view, node.log);
    r := L.WriteLocal(node, author, payload, name, content);
    if r.Ok? {
      WriteGrows(v, log, r.value, node.view);
      scans.TopicGrows(t, SnapOf(node.view));
    }
  }

  /** What a local write commits stands on present dependencies, so it makes no hole either. */
  lemma WriteGrows(v: View, log: Log, op: Op, v': View)
    requires Represents(v, log) && L.StoredAs(v, log, op, v')
    ensures Grows(SnapOf(v), SnapOf(v'))
  {
    hide Represents, Grows, O.AddsWhole, SnapOf;
    AdmissionGrows(v, log, v', log[op.id := op]);
  }

  /** A page asked for under an intact verdict is delivered to any reader with a closed cursor. */
  method ReadScanned(node: O.Oplog, scans: I.Inspections, t: TopicId, key: I.Key, most: nat,
                     cursor: P.Cursor, limit: Option<nat>, ghost read: set<OpId>)
    returns (verdict: I.Integrity, page: Result<P.Page, P.PageError>)
    requires node.Valid() && scans.Valid() && scans.Current(t, key) && scans.now[t] == SnapOf(node.view)
    requires G.StandsOn(node.view) == Some(cursor.genesis) && P.Exact(node.log, read, cursor.clock)
    modifies scans
    ensures scans.Valid()
    ensures verdict.Intact? ==>
      && page.Ok? && P.DeliversNext(node.log, read, P.Room(limit), page.value)
      && P.AsAsked(limit, node.log, read, page.value.entries)
    ensures !verdict.Intact? ==> page == Err(P.IncompleteHistory)
    ensures I.StateOf(old(scans.topics), t, key).Whole? && I.NoHoles(SnapOf(node.view)) ==> verdict.Intact?
  {
    hide Represents, ProjectionsMatch, Grows, I.Truthful, P.DeliversNext, P.Delivers, P.AsAsked, P.Exact;
    hide IsHole, I.Covers;
    assert Grows(SnapOf(node.view), SnapOf(node.view)) by { I.SelfGrows(SnapOf(node.view)); }
    verdict := scans.Question(t, key, SnapOf(node.view), most);
    if verdict.Intact? {
      IntactIsComplete(node.view, node.log);
    }
    page := P.HistoryPage(node.view, verdict.Intact?, cursor, limit, node.log, read);
  }

  lemma CompleteHasNoHoles(v: View, log: Log)
    requires Represents(v, log) && Complete(v, log)
    ensures I.NoHoles(SnapOf(v))
  {
    hide Good, MetasMatch, IndexesMatch, StateMatches, Resolvable, SnapOf, Deps;
    Listed(v, log);
    SnapHas(v);
    DepsInHistory(v, log);
  }

  lemma DepsInHistory(v: View, log: Log)
    requires Represents(v, log)
    ensures forall x <- log, d <- log[x].deps :: d in log
  {
  }

  /**
   On an undamaged topic that is not changing, a bounded number of questions ends the inspection, and
   then the page is delivered.
   */
  method ReadUndamaged(node: O.Oplog, scans: I.Inspections, t: TopicId, key: I.Key, most: nat,
                       cursor: P.Cursor, limit: Option<nat>, ghost read: set<OpId>)
    returns (asked: nat, page: Result<P.Page, P.PageError>)
    requires node.Valid() && scans.Valid() && scans.Current(t, key) && scans.now[t] == SnapOf(node.view)
    requires Complete(node.view, node.log) && I.Idle(I.StateOf(scans.topics, t, key))
    requires G.StandsOn(node.view) == Some(cursor.genesis) && P.Exact(node.log, read, cursor.clock)
    modifies scans
    ensures page.Ok? && P.DeliversNext(node.log, read, P.Room(limit), page.value)
    ensures P.AsAsked(limit, node.log, read, page.value.entries)
    ensures
      var was := I.StateOf(old(scans.topics), t, key);
      (asked - I.Debt(was) - 1) * Max(most, 1) <= I.WorkLeft(SnapOf(node.view), was)
  {
    hide Represents, ProjectionsMatch, I.Truthful, P.DeliversNext, P.AsAsked, P.Exact, I.NoHoles, I.Debt;
    hide I.WorkLeft, SnapOf;
    CompleteHasNoHoles(node.view, node.log);
    asked := scans.AskUntilIntact(t, key, SnapOf(node.view), most);
    var verdict;
    verdict, page := ReadScanned(node, scans, t, key, most, cursor, limit, read);
  }
}
