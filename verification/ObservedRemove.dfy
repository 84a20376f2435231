/** The observed-remove reducer: quads added and removed by concurrent writers. */
module ObservedRemove {
  import opened Prelude
  import opened Dag

  type Quad = string

  datatype Event = AddQuad(quad: Quad) | RemoveQuad(quad: Quad)

  /** An admitted event with the metadata a reducer reads: its place and its observed clock. */
  datatype Record = Record(id: OpId, actor: ActorId, pos: u64, clock: Clock, event: Event)

  datatype Entry = Entry(adds: Clock, removes: Clock)

  type Events = map<OpId, Event>

  /** `record` is what the history holds of one event. */
  ghost predicate Faithful(log: Log, events: Events, record: Record)
    requires Closed(log)
  {
    && record.id in log && record.id in events && record.event == events[record.id]
    && record.actor == log[record.id].actor && record.pos == log[record.id].pos
    && IsClock(log, Below(log, log[record.id].deps), record.clock)
  }

  /** Every position of `other` is reached. */
  predicate Dominates(clock: Clock, other: Clock) {
    forall a <- other :: other[a] <= Get(clock, a)
  }

  predicate IsPresent(entry: Entry) {
    !Dominates(entry.removes, entry.adds)
  }

  ghost function Adds(events: Events, seen: set<OpId>, q: Quad): set<OpId> {
    set id <- seen | id in events && events[id] == AddQuad(q)
  }

  ghost function Removes(events: Events, seen: set<OpId>, q: Quad): set<OpId> {
    set id <- seen | id in events && events[id] == RemoveQuad(q)
  }

  /** What the removes of a quad have observed. */
  ghost function Observed(log: Log, removes: set<OpId>): (s: set<OpId>)
    requires Closed(log)
    ensures s <= log.Keys
  {
    set x <- log | exists r :: r in removes && r in log && Ancestor(log, x, r)
  }

  /** The add clock is that of the adds with all they depend on, the remove clock that of what was observed. */
  ghost predicate EntryOf(log: Log, events: Events, seen: set<OpId>, q: Quad, entry: Entry)
    requires Closed(log)
  {
    && IsClock(log, Below(log, Adds(events, seen, q)), entry.adds)
    && IsClock(log, Observed(log, Removes(events, seen, q)), entry.removes)
  }

  ghost predicate Reduced(log: Log, events: Events, seen: set<OpId>, state: map<Quad, Entry>)
    requires Closed(log)
  {
    && (forall q :: q in state <==> Adds(events, seen, q) + Removes(events, seen, q) != {})
    && (forall q <- state :: EntryOf(log, events, seen, q, state[q]))
  }

  /** The state is decided by the set of events, not by their order or number. */
  lemma StateIsOfTheSet(log: Log, events: Events, seen: set<OpId>, a: map<Quad, Entry>, b: map<Quad, Entry>)
    requires Closed(log) && Reduced(log, events, seen, a) && Reduced(log, events, seen, b)
    ensures a == b
  {
    hide IsClock, Below, Observed;
    forall q | q in a
      ensures q in b && a[q] == b[q]
    {
      ClockUnique(log, Below(log, Adds(events, seen, q)), a[q].adds, b[q].adds);
      ClockUnique(log, Observed(log, Removes(events, seen, q)), a[q].removes, b[q].removes);
    }
  }

  lemma ObservedIsClosed(log: Log, removes: set<OpId>)
    requires Closed(log)
    ensures DownClosed(log, Observed(log, removes))
  {
    forall x, d | x in Observed(log, removes) && d in log[x].deps
      ensures d in Observed(log, removes)
    {
      var r :| r in removes && r in log && Ancestor(log, x, r);
      assert Ancestor(log, d, x);
      AncestorTransitive(log, d, x, r);
    }
  }

  /** On closed sets one clock dominates another exactly when its set holds the other. */
  lemma DominatesIsSubset(log: Log, s: set<OpId>, c: Clock, t: set<OpId>, d: Clock)
    requires Closed(log) && Chained(log) && ForkFree(log)
    requires DownClosed(log, s) && IsClock(log, s, c) && DownClosed(log, t) && IsClock(log, t, d)
    ensures Dominates(c, d) <==> t <= s
  {
    hide Closed, Chained, ForkFree;
    if Dominates(c, d) {
      forall x | x in t
        ensures x in s
      {
        ClockCovers(log, s, c, x);
      }
    }
    if t <= s {
      forall a | a in d
        ensures d[a] <= Get(c, a)
      {
        var x :| x in t && log[x].actor == a && log[x].pos == d[a];
        ClockCovers(log, s, c, x);
      }
    }
  }

  /** A quad shows if and only if some add of it is an ancestor of no remove of it. */
  lemma {:induction false} PresentMeansUnobservedAdd(log: Log, events: Events, seen: set<OpId>, q: Quad, entry: Entry)
    requires Closed(log) && Chained(log) && ForkFree(log)
    requires seen <= log.Keys && EntryOf(log, events, seen, q, entry)
    ensures IsPresent(entry) <==>
      exists a :: a in Adds(events, seen, q) && forall r <- Removes(events, seen, q) :: !Ancestor(log, a, r)
  {
    hide Chained, ForkFree, Ancestor, IsClock;
    var (adds, removes) := (Adds(events, seen, q), Removes(events, seen, q));
    BelowIsClosed(log, adds);
    ObservedIsClosed(log, removes);
    DominatesIsSubset(log, Observed(log, removes), entry.removes, Below(log, adds), entry.adds);
    if adds <= Observed(log, removes) {
      BelowIsLeast(log, adds, Observed(log, removes));
    }
    assert IsPresent(entry) <==> !(adds <= Observed(log, removes));
  }

  lemma AddStep(log: Log, events: Events, seen: set<OpId>, q: Quad, entry: Entry, record: Record)
    requires Closed(log) && seen <= log.Keys && EntryOf(log, events, seen, q, entry)
    requires Faithful(log, events, record) && record.event == AddQuad(q)
    ensures EntryOf(log, events, seen + {record.id}, q,
              entry.(adds := Observe(Merge(entry.adds, record.clock), record.actor, record.pos)))
  {
    hide Closed, IsClock, Below, Ancestor;
    var (id, adds) := (record.id, Adds(events, seen, q));
    var below := Below(log, log[id].deps);
    MergeClock(log, Below(log, adds), below, entry.adds, record.clock);
    ObserveClock(log, Below(log, adds) + below, Merge(entry.adds, record.clock), id);
    BelowUnion(log, adds, {id});
    AncestorsAreBelowDeps(log, id);
    assert Adds(events, seen + {id}, q) == adds + {id};
    assert Removes(events, seen + {id}, q) == Removes(events, seen, q);
    assert Below(log, adds) + below + {id} == Below(log, adds + {id});
  }

  lemma RemoveStep(log: Log, events: Events, seen: set<OpId>, q: Quad, entry: Entry, record: Record)
    requires Closed(log) && seen <= log.Keys && EntryOf(log, events, seen, q, entry)
    requires Faithful(log, events, record) && record.event == RemoveQuad(q)
    ensures EntryOf(log, events, seen + {record.id}, q, entry.(removes := Merge(entry.removes, record.clock)))
  {
    hide Closed, IsClock, Below, Ancestor;
    var (id, removes) := (record.id, Removes(events, seen, q));
    var below := Below(log, log[id].deps);
    MergeClock(log, Observed(log, removes), below, entry.removes, record.clock);
    AncestorsAreBelowDeps(log, id);
    assert Removes(events, seen + {id}, q) == removes + {id};
    assert Adds(events, seen + {id}, q) == Adds(events, seen, q);
    assert Observed(log, removes + {id}) == Observed(log, removes) + below;
  }

  lemma OtherQuad(log: Log, events: Events, seen: set<OpId>, q: Quad, entry: Entry, id: OpId)
    requires Closed(log) && id in events && events[id].quad != q && EntryOf(log, events, seen, q, entry)
    ensures EntryOf(log, events, seen + {id}, q, entry)
  {
    hide Closed, IsClock, Below, Observed;
    assert Adds(events, seen + {id}, q) == Adds(events, seen, q);
    assert Removes(events, seen + {id}, q) == Removes(events, seen, q);
  }

  /** The entry of a quad, an empty one when no event named it. */
  lemma ReducedAt(log: Log, events: Events, seen: set<OpId>, state: map<Quad, Entry>, q: Quad)
    requires Closed(log) && Reduced(log, events, seen, state)
    ensures EntryOf(log, events, seen, q, if q in state then state[q] else Entry(map[], map[]))
  {
  }

  lemma ReducedStep(log: Log, events: Events, seen: set<OpId>, state: map<Quad, Entry>, id: OpId, q: Quad, entry: Entry)
    requires Closed(log) && Reduced(log, events, seen, state) && id in events && events[id].quad == q
    requires EntryOf(log, events, seen + {id}, q, entry)
    ensures Reduced(log, events, seen + {id}, state[q := entry])
  {
    hide EntryOf, Adds, Removes;
    EventsGrow(events, seen, id, q);
    forall p | p in state && p != q
      ensures EntryOf(log, events, seen + {id}, p, state[p])
    {
      OtherQuad(log, events, seen, p, state[p], id);
    }
  }

  class RdfState {
    var entries: map<Quad, Entry>

    constructor ()
      ensures entries == map[]
    {
      entries := map[];
    }

    method Apply(record: Record, ghost log: Log, ghost events: Events, ghost seen: set<OpId>)
      requires Closed(log) && seen <= log.Keys && Faithful(log, events, record)
      requires Reduced(log, events, seen, entries)
      modifies this
      ensures Reduced(log, events, seen + {record.id}, entries)
    {
      hide EntryOf, Faithful, Reduced;
      var q := record.event.quad;
      var entry := if q in entries then entries[q] else Entry(map[], map[]);
      ReducedAt(log, events, seen, entries, q);
      FaithfulEvent(log, events, record);
      match record.event {
        case AddQuad(_) =>
          AddStep(log, events, seen, q, entry, record);
          entry := entry.(adds := Observe(Merge(entry.adds, record.clock), record.actor, record.pos));
        case RemoveQuad(_) =>
          RemoveStep(log, events, seen, q, entry, record);
          entry := entry.(removes := Merge(entry.removes, record.clock));
      }
      ReducedStep(log, events, seen, entries, record.id, q, entry);
      entries := entries[q := entry];
    }

    /** Any order of the records, with repeats, gives the state of their set. */
    method ApplyAll(records: seq<Record>, ghost log: Log, ghost events: Events)
      requires Closed(log) && entries == map[]
      requires forall i :: 0 <= i < |records| ==> Faithful(log, events, records[i])
      modifies this
      ensures Reduced(log, events, set r <- records :: r.id, entries)
    {
      hide Reduced, Faithful;
      NothingReduced(log, events);
      ghost var seen: set<OpId> := {};
      for i := 0 to |records|
        invariant seen == set r <- records[..i] :: r.id
        invariant seen <= log.Keys && Reduced(log, events, seen, entries)
      {
        FaithfulEvent(log, events, records[i]);
        Apply(records[i], log, events, seen);
        assert records[..i + 1] == records[..i] + [records[i]];
        seen := seen + {records[i].id};
      }
      assert records[..|records|] == records;
    }
  }

  lemma FaithfulEvent(log: Log, events: Events, record: Record)
    requires Closed(log) && Faithful(log, events, record)
    ensures record.id in log && record.id in events && events[record.id] == record.event
  {
  }

  lemma EventsGrow(events: Events, seen: set<OpId>, id: OpId, q: Quad)
    requires id in events && events[id].quad == q
    ensures Adds(events, seen + {id}, q) + Removes(events, seen + {id}, q) != {}
    ensures forall p :: p != q ==>
      && Adds(events, seen + {id}, p) == Adds(events, seen, p)
      && Removes(events, seen + {id}, p) == Removes(events, seen, p)
  {
    assert id in Adds(events, seen + {id}, q) + Removes(events, seen + {id}, q);
    forall p | p != q
      ensures Adds(events, seen + {id}, p) == Adds(events, seen, p)
      ensures Removes(events, seen + {id}, p) == Removes(events, seen, p)
    {
    }
  }

  lemma NothingReduced(log: Log, events: Events)
    requires Closed(log)
    ensures Reduced(log, events, {}, map[])
  {
  }
}
