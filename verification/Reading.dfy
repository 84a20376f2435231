/** Whole runs of a reader: admissions and page reads in any order, with any limits. */
module Reading {
  import opened Prelude
  import opened Dag
  import opened Membership
  import opened Validity
  import opened Store
  import opened Projection
  import opened Topology
  import opened Paging
  import O = Oplog
  import G = Genesis
  import L = LocalWrites

  /** What has been delivered to a reader that started on `before`: each once, dependencies first. */
  ghost predicate Delivered(log: Log, before: set<OpId>, out: seq<Op>) {
    && (forall i :: 0 <= i < |out| ==> NewIn(log, before, out[i]))
    && (forall i, j :: 0 <= i < j < |out| ==> out[i].id != out[j].id)
    && DepsFirst(before, out)
  }

  ghost predicate NewIn(log: Log, before: set<OpId>, op: Op) {
    op.id in log && log[op.id] == op && op.id !in before
  }

  ghost predicate DepsFirst(before: set<OpId>, out: seq<Op>) {
    forall i, d :: 0 <= i < |out| && d in out[i].deps ==> d in before || d in Emitted(out[..i])
  }

  lemma DeliveredFrame(log: Log, more: Log, before: set<OpId>, out: seq<Op>)
    requires Delivered(log, before, out) && Extends(log, more)
    ensures Delivered(more, before, out)
  {
  }

  lemma EmittedConcat(a: seq<Op>, b: seq<Op>)
    ensures Emitted(a + b) == Emitted(a) + Emitted(b)
  {
  }

  lemma AppendPage(log: Log, before: set<OpId>, out: seq<Op>, cursor: Cursor, limit: nat, page: Page)
    requires Regular(log) && Delivered(log, before, out) && Exact(log, before + Emitted(out), cursor.clock)
    requires Delivers(log, cursor, limit, page) && DeliversNext(log, before + Emitted(out), limit, page)
    ensures Delivered(log, before, out + page.entries)
    ensures Exact(log, before + Emitted(out + page.entries), page.cursor.clock)
  {
    hide Regular, Exact, Emitted, DepsFirst, DepRead, LeastUnread;
    var (more, entries) := (out + page.entries, page.entries);
    EmittedConcat(out, entries);
    assert before + Emitted(out) + Emitted(entries) == before + Emitted(more);
    PageDistinct(log, cursor, limit, page);
    assert LeastUnread(log, before + Emitted(out), Emitted(entries));
    forall k | 0 <= k < |entries|
      ensures NewIn(log, before, entries[k]) && entries[k].id !in Emitted(out)
    {
      EmittedHas(entries, k);
      LeastIsNew(log, before + Emitted(out), Emitted(entries), entries[k].id);
    }
    forall i | 0 <= i < |out|
      ensures out[i].id in Emitted(out)
    {
      EmittedHas(out, i);
    }
    PageDeps(log, before, out, cursor, limit, page);
  }

  lemma LeastIsNew(log: Log, read: set<OpId>, page: set<OpId>, x: OpId)
    requires LeastUnread(log, read, page) && x in page
    ensures x !in read
  {
  }

  lemma PageDeps(log: Log, before: set<OpId>, out: seq<Op>, cursor: Cursor, limit: nat, page: Page)
    requires Regular(log) && DepsFirst(before, out) && Exact(log, before + Emitted(out), cursor.clock)
    requires Delivers(log, cursor, limit, page)
    ensures DepsFirst(before, out + page.entries)
  {
    hide Regular, Exact, Emitted;
    var (more, entries) := (out + page.entries, page.entries);
    forall i, d | 0 <= i < |more| && d in more[i].deps
      ensures d in before || d in Emitted(more[..i])
    {
      if i < |out| {
        assert more[..i] == out[..i];
      } else {
        var k := i - |out|;
        assert more[..i] == out + entries[..k];
        EmittedConcat(out, entries[..k]);
        assert DepRead(log, cursor.clock, Emitted(entries[..k]), d);
        if d !in Emitted(entries[..k]) {
          CoveredIsRead(log, before + Emitted(out), cursor.clock, d);
        }
      }
    }
  }

  lemma CoveredIsRead(log: Log, read: set<OpId>, clock: Clock, d: OpId)
    requires Regular(log) && Exact(log, read, clock) && d in log && !PastClock(log, clock, d)
    ensures d in read
  {
    hide Exact, Closed, Chained, ForkFree;
    ExactCovers(log, read, clock, d);
  }

  lemma EmittedHas(out: seq<Op>, i: nat)
    requires i < |out|
    ensures out[i].id in Emitted(out)
  {
  }

  lemma PageDistinct(log: Log, cursor: Cursor, limit: nat, page: Page)
    requires Delivers(log, cursor, limit, page)
    ensures forall i, j :: 0 <= i < j < |page.entries| ==> page.entries[i].id != page.entries[j].id
  {
    hide DepRead, Emitted;
    Distinct(page.entries);
  }

  /** As many ids as operations means no id twice. */
  lemma {:induction false} Distinct(out: seq<Op>)
    ensures |Emitted(out)| <= |out|
    ensures |Emitted(out)| == |out| ==> forall i, j :: 0 <= i < j < |out| ==> out[i].id != out[j].id
  {
    hide Emitted;
    if out == [] {
      NothingEmitted(map[]);
    } else {
      var (init, last) := (out[..|out| - 1], out[|out| - 1]);
      Distinct(init);
      assert out == init + [last];
      EmittedAppend(init, last);
      forall i | 0 <= i < |init|
        ensures out[i].id in Emitted(init)
      {
        EmittedHas(init, i);
      }
    }
  }

  /** A batch arrives, the node itself writes under ids that a hash gives, or the reader asks for a page. */
  datatype Event =
    | Arrives(ops: seq<Op>)
    | Writes(author: PeerId, payload: Payload, name: Op -> OpId)
    | Asks(limit: Option<nat>)

  /** One identity, one content across the history, everything that arrives and everything written. */
  ghost predicate Within(log: Log, events: seq<Event>, content: OpId -> Op) {
    && L.Contains(log, content)
    && (forall e <- events :: e.Arrives? ==> forall op <- e.ops :: content(op.id) == op)
    && (forall e <- events :: e.Writes? ==> L.Names(e.name, content))
  }

  lemma WithinArrival(log: Log, events: seq<Event>, content: OpId -> Op, e: Event)
    requires Within(log, events, content) && e in events && e.Arrives?
    ensures O.AuthenticBatch(log, e.ops)
  {
  }

  lemma WithinGrew(log: Log, events: seq<Event>, content: OpId -> Op, e: Event, more: Log, accepted: set<OpId>)
    requires Within(log, events, content) && e in events && e.Arrives? && O.Grew(log, e.ops, more, accepted)
    ensures Within(more, events, content) && Extends(log, more)
  {
    hide L.Names;
    forall id | id in more
      ensures more[id] == content(id)
    {
      if id !in log {
        var op :| op in e.ops && op.id == id;
      }
    }
  }

  lemma WithinWrite(log: Log, events: seq<Event>, content: OpId -> Op, e: Event, more: Log)
    requires Within(log, events, content) && e in events && e.Writes?
    ensures L.Names(e.name, content) && L.Contains(log, content)
    ensures L.Contains(more, content) ==> Within(more, events, content)
  {
    hide L.Names, L.Contains;
  }

  /** A write grows the history as a batch of the one operation would. */
  lemma WriteGrew(log: Log, op: Op)
    requires op.id !in log
    ensures O.Grew(log, [op], log[op.id := op], {op.id}) && Extends(log, log[op.id := op])
  {
  }

  /** Where a reader stands in a whole topic. */
  ghost predicate Standing(v: View, log: Log, before: set<OpId>, cursor: Cursor, out: seq<Op>) {
    && Complete(v, log) && G.StandsOn(v) == Some(cursor.genesis)
    && Delivered(log, before, out)
    && Exact(log, before + Emitted(out), cursor.clock)
  }

  lemma StandingGrows(v: View, log: Log, before: set<OpId>, cursor: Cursor, out: seq<Op>,
                      ops: seq<Op>, accepted: set<OpId>, v': View, log': Log)
    requires Represents(v, log) && Represents(v', log') && Complete(v', log')
    requires Standing(v, log, before, cursor, out) && O.Grew(log, ops, log', accepted) && Extends(log, log')
    ensures Standing(v', log', before, cursor, out)
  {
    hide Represents, Complete, O.Grew, Delivered, Exact, Emitted, Extends;
    DeliveredFrame(log, log', before, out);
    ExactFrame(log, log', before + Emitted(out), cursor.clock);
    G.StandsInHistory(v, log);
    G.GrewKeeps(log, ops, log', accepted, cursor.genesis);
    G.StandsOnGenesis(v', log', cursor.genesis);
  }

  /** Everything the pages of a run hold, in order. */
  function Given(pages: seq<Option<Page>>): (out: seq<Op>) {
    if pages == [] then []
    else
      var last := pages[|pages| - 1];
      Given(pages[..|pages| - 1]) + if last.Some? then last.value.entries else []
  }

  /** An arriving batch adds operations of its own, and all of them whenever a good history results. */
  ghost predicate Takes(log: Log, ops: seq<Op>, log': Log) {
    && (log' == log || exists accepted :: O.Grew(log, ops, log', accepted))
    && (Good(O.Joined(log, ops)) ==> log' == O.Joined(log, ops))
  }

  /** A write of the node: what it leaves is decided by the undamaged store of the history. */
  ghost predicate WritesAs(log: Log, author: PeerId, payload: Payload, name: Op -> OpId, log': Log) {
    exists v :: Represents(v, log) && Complete(v, log) && L.Wrote(v, log, author, payload, name, log')
  }

  /** What one event does to a reader of `read`: a question gets the least unread operations. */
  ghost predicate Answers(read: set<OpId>, log: Log, event: Event, log': Log, page: Option<Page>) {
    match event
    case Arrives(ops) => page.None? && Takes(log, ops, log')
    case Writes(author, payload, name) => page.None? && WritesAs(log, author, payload, name, log')
    case Asks(limit) =>
      && page.Some? && log' == log && DeliversNext(log, read, Room(limit), page.value)
      && AsAsked(limit, log, read, page.value.entries)
  }

  ghost predicate Ran(before: set<OpId>, events: seq<Event>, logs: seq<Log>, pages: seq<Option<Page>>) {
    && |pages| == |events|
    && |logs| == |events| + 1
    && (forall i :: 0 <= i < |events| ==>
          Answers(before + Emitted(Given(pages[..i])), logs[i], events[i], logs[i + 1], pages[i]))
  }

  /** The page holds fewer operations than were asked for. */
  ghost predicate Spare(limit: Option<nat>, page: Option<Page>) {
    page.Some? && |page.value.entries| < if limit.None? then U64_MAX else Max(limit.value, 1)
  }

  lemma RanStep(before: set<OpId>, events: seq<Event>, n: nat, logs: seq<Log>, pages: seq<Option<Page>>,
                log: Log, page: Option<Page>)
    requires n < |events| && Ran(before, events[..n], logs, pages)
    requires Answers(before + Emitted(Given(pages)), logs[n], events[n], log, page)
    ensures Ran(before, events[..n + 1], logs + [log], pages + [page])
    ensures Given(pages + [page]) == Given(pages) + if page.Some? then page.value.entries else []
  {
    hide Answers, Emitted;
    var (more, given) := (events[..n + 1], pages + [page]);
    assert given[..n] == pages;
    forall i | 0 <= i < |more|
      ensures Answers(before + Emitted(Given(given[..i])), (logs + [log])[i], more[i], (logs + [log])[i + 1], given[i])
    {
      assert given[..i] == pages[..i];
    }
  }

  /**
   Any run: each arriving batch is taken as admission takes it, each write of the node adds its
   operation when the author may write, and each question gets the next page of the history as it then
   is. What was given so far names each operation once, after its dependencies, and the cursor covers
   exactly what the reader had and was given.
   */
  method ReadRun(node: O.Oplog, events: seq<Event>, start: Cursor, refuses: Op -> bool,
                 ghost before: set<OpId>, ghost content: OpId -> Op)
    returns (cursor: Cursor, pages: seq<Option<Page>>, ghost logs: seq<Log>)
    requires node.Valid() && Within(node.log, events, content)
    requires Complete(node.view, node.log) && G.StandsOn(node.view) == Some(start.genesis)
    requires Exact(node.log, before, start.clock)
    modifies node
    ensures node.Valid() && Complete(node.view, node.log) && cursor.genesis == start.genesis
    ensures Ran(before, events, logs, pages)
    ensures logs[0] == old(node.log) && logs[|events|] == node.log
    ensures Delivered(node.log, before, Given(pages))
    ensures Exact(node.log, before + Emitted(Given(pages)), cursor.clock)
  {
    hide Represents, ProjectionsMatch, Complete, Within, Standing, Delivers, DeliversNext, Delivered, Exact, AsAsked;
    hide O.AuthenticBatch, O.Grew, O.Joined, G.StandsOn, Emitted, Given, Ran, Good;
    hide L.Wrote, L.WrittenAs, L.StoredAs, L.Names, L.Contains;
    cursor, pages, logs := start, [], [node.log];
    RanStart(before, events, node.log);
    StandingStart(node.view, node.log, before, start);
    for n := 0 to |events|
      invariant node.Valid() && cursor.genesis == start.genesis
      invariant Within(node.log, events, content)
      invariant Standing(node.view, node.log, before, cursor, Given(pages))
      invariant |logs| == n + 1 && logs[0] == old(node.log) && logs[n] == node.log
      invariant Ran(before, events[..n], logs, pages)
    {
      ghost var (v, log, given) := (node.view, node.log, Given(pages));
      StandingComplete(v, log, before, cursor, given);
      var page := None;
      match events[n] {
        case Arrives(ops) =>
          WithinArrival(log, events, content, events[n]);
          O.JoinedIsUnion(log, ops);
          O.CompleteMends(v, log, Emitted(ops));
          var r, pending := node.AdmitBatch(ops, false, refuses, O.Joined(log, ops));
          if r.Ok? {
            WithinGrew(log, events, content, events[n], node.log, r.value);
            StandingGrows(v, log, before, cursor, given, ops, r.value, node.view, node.log);
          }
        case Writes(author, payload, name) =>
          WithinWrite(log, events, content, events[n], log);
          var r := L.WriteLocal(node, author, payload, name, content);
          WithinWrite(log, events, content, events[n], node.log);
          assert WritesAs(log, author, payload, name, node.log);
          if r.Ok? {
            WriteGrew(log, r.value);
            StoredMeans(v, log, r.value, node.view);
            StandingGrows(v, log, before, cursor, given, [r.value], {r.value.id}, node.view, node.log);
          }
        case Asks(limit) =>
          StoreRegular(v, log);
          var next := HistoryPage(node.view, true, cursor, limit, node.log, before + Emitted(given));
          StandingPage(v, log, before, cursor, given, Room(limit), next.value);
          DeliversGenesis(log, cursor, Room(limit), next.value);
          cursor, page := next.value.cursor, Some(next.value);
      }
      RanStep(before, events, n, logs, pages, node.log, page);
      assert given + [] == given;
      logs, pages := logs + [node.log], pages + [page];
    }
    assert events[..|events|] == events;
    StandingComplete(node.view, node.log, before, cursor, Given(pages));
  }

  lemma StoredMeans(v: View, log: Log, op: Op, v': View)
    requires Complete(v, log) && L.StoredAs(v, log, op, v')
    ensures Represents(v', log[op.id := op]) && Complete(v', log[op.id := op])
  {
    hide Represents;
  }

  lemma RanStart(before: set<OpId>, events: seq<Event>, log: Log)
    ensures Ran(before, events[..0], [log], []) && Given([]) == []
  {
  }

  /** A page with room left over ends the backlog: the reader then has the whole history of that moment. */
  lemma ShortPageCatchesUp(before: set<OpId>, events: seq<Event>, logs: seq<Log>, pages: seq<Option<Page>>, i: nat)
    requires Ran(before, events, logs, pages) && i < |events| && events[i].Asks? && Spare(events[i].limit, pages[i])
    ensures before + Emitted(Given(pages[..i + 1])) == logs[i].Keys
  {
    hide Exact, LeastUnread, Emitted, Room;
    var (had, page) := (Given(pages[..i]), pages[i].value);
    assert Answers(before + Emitted(had), logs[i], events[i], logs[i + 1], pages[i]);
    assert pages[..i + 1][..i] == pages[..i];
    EmittedConcat(had, page.entries);
    ExactWithin(logs[i], before + Emitted(had) + Emitted(page.entries), page.cursor.clock);
  }

  /** `op` stands in `out` at one place only. */
  ghost predicate Once(out: seq<Op>, op: Op) {
    exists i :: 0 <= i < |out| && out[i] == op && forall j :: 0 <= j < |out| && out[j].id == op.id ==> j == i
  }

  /** A reader that has caught up was given every operation it did not have, each exactly once. */
  lemma EveryOperationOnce(before: set<OpId>, events: seq<Event>, logs: seq<Log>, pages: seq<Option<Page>>, id: OpId)
    requires Ran(before, events, logs, pages) && events != []
    requires Delivered(logs[|events|], before, Given(pages))
    requires events[|events| - 1].Asks? && Spare(events[|events| - 1].limit, pages[|events| - 1])
    requires id in logs[|events|] && id !in before
    ensures Once(Given(pages), logs[|events|][id])
  {
    hide DeliversNext, Given, DepsFirst;
    var (n, out) := (|events| - 1, Given(pages));
    ShortPageCatchesUp(before, events, logs, pages, n);
    assert pages[..n + 1] == pages;
    assert Answers(before + Emitted(Given(pages[..n])), logs[n], events[n], logs[n + 1], pages[n]);
    var i :| 0 <= i < |out| && out[i].id == id;
    assert NewIn(logs[n + 1], before, out[i]);
  }

  lemma ExactWithin(log: Log, read: set<OpId>, clock: Clock)
    requires Exact(log, read, clock)
    ensures read <= log.Keys
  {
  }

  lemma DeliversGenesis(log: Log, cursor: Cursor, limit: nat, page: Page)
    requires Delivers(log, cursor, limit, page)
    ensures page.cursor.genesis == cursor.genesis
  {
  }

  lemma StandingStart(v: View, log: Log, before: set<OpId>, start: Cursor)
    requires Complete(v, log) && G.StandsOn(v) == Some(start.genesis) && Exact(log, before, start.clock)
    ensures Standing(v, log, before, start, [])
  {
  }

  lemma StandingComplete(v: View, log: Log, before: set<OpId>, cursor: Cursor, out: seq<Op>)
    requires Standing(v, log, before, cursor, out)
    ensures Complete(v, log) && v.state.Some? && v.state.value.genesis == cursor.genesis
    ensures Delivered(log, before, out) && Exact(log, before + Emitted(out), cursor.clock)
  {
  }

  lemma StandingPage(v: View, log: Log, before: set<OpId>, cursor: Cursor, out: seq<Op>, limit: nat, page: Page)
    requires Regular(log) && Standing(v, log, before, cursor, out)
    requires Delivers(log, cursor, limit, page) && DeliversNext(log, before + Emitted(out), limit, page)
    ensures Standing(v, log, before, page.cursor, out + page.entries)
  {
    hide Delivered, Exact, Emitted, Regular, DeliversNext;
    AppendPage(log, before, out, cursor, limit, page);
  }
}
