/**
 One slice of a sync reply: the stream's byte and message limits shared between the requests,
 in two passes. The planner that fills a page is an arbitrary function.
 */
module Replies {
  import opened Prelude
  import opened Packing

  type Request = nat

  datatype Limits = Limits(bytes: nat, messages: nat)

  /** Framed sizes: of a data message without its operations, an empty page result and a failure. */
  datatype Costs = Costs(overhead: nat, pageLen: nat, failureLen: nat)

  /** What the planner answers: the page result beyond an empty one, the operations, and what it says of them. */
  datatype Planned = Fails | Plans(extra: nat, ops: seq<WireOp>, more: bool, lists: bool, continued: bool)

  datatype Response =
    | Control(size: nat)
    | Data(ops: Message)
    | PageResult(request: Request, extra: nat, more: bool)
    | Failure(request: Request)

  function Size(c: Costs, r: Response): nat {
    match r
    case Control(size) => size
    case Data(ops) => Framed(c.overhead, ops)
    case PageResult(_, extra, _) => c.pageLen + extra
    case Failure(_) => c.failureLen
  }

  function SizeAll(c: Costs, rs: seq<Response>): nat {
    if rs == [] then 0 else SizeAll(c, rs[..|rs| - 1]) + Size(c, rs[|rs| - 1])
  }

  /** The requests a reply answers, in order. */
  function Answered(rs: seq<Response>): seq<Request> {
    if rs == [] then []
    else
      var last := rs[|rs| - 1];
      Answered(rs[..|rs| - 1]) + if last.PageResult? || last.Failure? then [last.request] else []
  }

  /** How many requests a reply fails. */
  function Failures(rs: seq<Response>): nat {
    if rs == [] then 0 else Failures(rs[..|rs| - 1]) + if rs[|rs| - 1].Failure? then 1 else 0
  }

  lemma OneMore(c: Costs, rs: seq<Response>, r: Response)
    ensures SizeAll(c, rs + [r]) == SizeAll(c, rs) + Size(c, r)
    ensures Failures(rs + [r]) == Failures(rs) + if r.Failure? then 1 else 0
    ensures Answered(rs + [r]) == Answered(rs) + if r.PageResult? || r.Failure? then [r.request] else []
  {
  }

  function DataOf(messages: seq<Message>): (rs: seq<Response>)
    ensures |rs| == |messages| && forall i :: 0 <= i < |rs| ==> rs[i] == Data(messages[i])
  {
    if messages == [] then [] else DataOf(messages[..|messages| - 1]) + [Data(messages[|messages| - 1])]
  }

  lemma {:induction false} DataSize(c: Costs, rs: seq<Response>, messages: seq<Message>)
    ensures SizeAll(c, rs + DataOf(messages)) == SizeAll(c, rs) + Total(c.overhead, messages)
    ensures Answered(rs + DataOf(messages)) == Answered(rs) && Failures(rs + DataOf(messages)) == Failures(rs)
  {
    if messages == [] {
      assert rs + DataOf(messages) == rs;
    } else {
      var (init, last) := (messages[..|messages| - 1], messages[|messages| - 1]);
      DataSize(c, rs, init);
      OneMore(c, rs + DataOf(init), Data(last));
      assert rs + DataOf(messages) == rs + DataOf(init) + [Data(last)];
    }
  }

  /** A reply under way: what it holds, and what is spoken for. */
  datatype Slice = Slice(responses: seq<Response>, bytes: nat, messages: nat)

  /** Every unanswered request has an empty page result set aside, and all of it is within the limits. */
  ghost predicate Kept(c: Costs, limits: Limits, s: Slice, waiting: nat) {
    && SizeAll(c, s.responses) + c.pageLen * (waiting + Failures(s.responses))
         == s.bytes + c.failureLen * Failures(s.responses)
    && s.bytes <= limits.bytes
    && |s.responses| + waiting == s.messages <= limits.messages
  }

  /** Shares at the start of a pass are still there for each of `left` requests. */
  ghost predicate Shared(limits: Limits, s: Slice, left: nat, share: (nat, nat)) {
    && s.bytes + left * share.0 <= limits.bytes
    && s.messages + left * share.1 <= limits.messages
  }

  /** An equal split of what is left: at least the first one, and enough for the others after it is spent. */
  lemma EqualSplit(room: nat, left: nat, first: nat, spent: nat)
    requires left > 0 && left * first <= room && spent <= room / left
    ensures first <= room / left
    ensures (left - 1) * first <= room - spent && spent <= room
  {
    var share := room / left;
    assert share * left <= room < share * left + left;
    assert first <= share by {
      if first > share {
        Times(left, share + 1, first);
      }
    }
    Times(left - 1, first, share);
    assert (left - 1) * share + share == left * share;
  }


  /** What is left, split equally. */
  function EqualShare(limits: Limits, s: Slice, left: nat): (share: (nat, nat))
    requires left > 0 && s.bytes <= limits.bytes && s.messages <= limits.messages
    ensures s.bytes + share.0 <= limits.bytes && s.messages + share.1 <= limits.messages
  {
    Split(limits.bytes - s.bytes, left);
    Split(limits.messages - s.messages, left);
    ((limits.bytes - s.bytes) / left, (limits.messages - s.messages) / left)
  }

  /** As much for each as there is for all of them. */
  lemma ShareIsEqual(limits: Limits, s: Slice, left: nat)
    requires left > 0 && s.bytes <= limits.bytes && s.messages <= limits.messages
    ensures
      var share := EqualShare(limits, s, left);
      && left * share.0 <= limits.bytes - s.bytes < left * (share.0 + 1)
      && left * share.1 <= limits.messages - s.messages < left * (share.1 + 1)
  {
    Split(limits.bytes - s.bytes, left);
    Split(limits.messages - s.messages, left);
  }

  lemma Split(room: nat, left: nat)
    requires left > 0
    ensures 0 <= room / left <= room && left * (room / left) <= room < left * (room / left + 1)
  {
    Times(room / left, 1, left);
  }

  /** A request is answered by a failure, or by the planned data that fits its share and the page result after it. */
  ghost predicate Serves(c: Costs, s: Slice, request: Request, planned: Planned, share: (nat, nat), after: Slice) {
    if planned.Fails? || planned.extra > share.0 then
      after == s.(responses := s.responses + [Failure(request)])
    else
      exists page: DataPage ::
        && Frames(c.overhead, planned.ops, share.1, share.0 - planned.extra, page)
        && after == Slice(
             s.responses + DataOf(page.messages) + [PageResult(request, planned.extra, planned.more || page.cut)],
             s.bytes + page.bytes + planned.extra, s.messages + |page.messages|)
  }

  /** What the planner answers in a pass to a request with this share, over the reply so far. */
  type Planner = (bool, Request, (nat, nat), Slice) -> Planned

  predicate Plannable(planned: Planned, share: (nat, nat)) {
    planned.Plans? && planned.extra <= share.0
  }

  /** A served stream that has nothing to list yet stops the slice. */
  predicate Stops(planned: Planned, share: (nat, nat), served: bool) {
    Plannable(planned, share) && served && planned.continued && !planned.lists
  }

  /** The planned data meets an operation that no frame can hold before its budgets end. */
  ghost predicate Breaks(c: Costs, planned: Planned, share: (nat, nat), served: bool) {
    && Plannable(planned, share) && !Stops(planned, share, served)
    && GetsStuck(c.overhead, planned.ops, share.1, share.0 - planned.extra)
  }

  /** Not even the first planned operation fits the share. */
  ghost predicate NothingFits(c: Costs, planned: Planned, share: (nat, nat))
    requires Plannable(planned, share)
  {
    planned.ops == [] || !Within(c.overhead, Pack(c.overhead, planned.ops[..1]), share.1, share.0 - planned.extra)
  }

  /** In the first pass, a request that has more, lists nothing and can send no data of it yet waits. */
  ghost predicate Defers(c: Costs, planned: Planned, share: (nat, nat), second: bool, served: bool) {
    && !second && Plannable(planned, share) && !Breaks(c, planned, share, served)
    && !planned.lists && !planned.continued
    && NothingFits(c, planned, share) && (planned.more || planned.ops != [])
  }

  lemma EmptyPage(c: Costs, planned: Planned, share: (nat, nat), page: DataPage)
    requires Plannable(planned, share)
    requires Frames(c.overhead, planned.ops, share.1, share.0 - planned.extra, page)
    ensures page.messages == [] <==> NothingFits(c, planned, share)
    ensures page.messages == [] ==> page.cut == (planned.ops != [])
  {
    hide Within, FitsFrame;
    PackHolds(c.overhead, planned.ops[..|Flat(page.messages)|]);
    if planned.ops != [] {
      PageIsLongestPrefix(c.overhead, planned.ops, share.1, share.0 - planned.extra, page, 1);
      if page.messages != [] {
        PrefixFits(c.overhead, planned.ops, 1, |Flat(page.messages)|, share.1, share.0 - planned.extra);
      }
    }
  }

  datatype Outcome = Served(slice: Slice) | Deferred | Stopped | Broken

  /** One request from its share: a failure, a page with its data, a second try later, or a stop. */
  method ServeOne(c: Costs, limits: Limits, s: Slice, request: Request, planned: Planned, share: (nat, nat),
                  second: bool, served: bool, ghost waiting: nat)
    returns (r: Outcome)
    requires c.failureLen <= c.pageLen && waiting > 0 && Kept(c, limits, s, waiting)
    requires s.bytes + share.0 <= limits.bytes && s.messages + share.1 <= limits.messages
    ensures r.Served? ==> Serves(c, s, request, planned, share, r.slice)
    ensures r.Served? ==>
      && Kept(c, limits, r.slice, waiting - 1)
      && s.bytes <= r.slice.bytes <= s.bytes + share.0 && s.messages <= r.slice.messages <= s.messages + share.1
      && s.responses <= r.slice.responses && Answered(r.slice.responses) == Answered(s.responses) + [request]
    ensures r.Deferred? <==> Defers(c, planned, share, second, served)
    ensures r.Stopped? <==> Stops(planned, share, served)
    ensures r.Broken? <==> Breaks(c, planned, share, served)
  {
    hide SizeAll, Answered, Failures, FitsFrame, Total, Pack, DataOf, Frames, NothingFits, GetsStuck, Kept;
    if planned.Fails? || planned.extra > share.0 {
      OneMore(c, s.responses, Failure(request));
      FailureKept(c, limits, s, waiting, request);
      return Served(s.(responses := s.responses + [Failure(request)]));
    }
    if served && planned.continued && !planned.lists {
      return Stopped;
    }
    var continued := planned.continued && !served;
    var page := SyncDataPage(c.overhead, planned.ops, share.1, share.0 - planned.extra);
    if page.Err? {
      return Broken;
    }
    var data := page.value;
    EmptyPage(c, planned, share, data);
    var more := planned.more || data.cut;
    if !second && data.messages == [] && more && !planned.lists && !continued {
      return Deferred;
    }
    DataSize(c, s.responses, data.messages);
    FramesWithin(c.overhead, planned.ops, share.1, share.0 - planned.extra, data);
    var sent := s.responses + DataOf(data.messages);
    OneMore(c, sent, PageResult(request, planned.extra, more));
    PageKept(c, limits, s, waiting, sent + [PageResult(request, planned.extra, more)],
      data.bytes + planned.extra, |data.messages|);
    return Served(Slice(sent + [PageResult(request, planned.extra, more)],
      s.bytes + data.bytes + planned.extra, s.messages + |data.messages|));
  }

  lemma FailureKept(c: Costs, limits: Limits, s: Slice, waiting: nat, request: Request)
    requires waiting > 0 && Kept(c, limits, s, waiting)
    ensures Kept(c, limits, s.(responses := s.responses + [Failure(request)]), waiting - 1)
  {
    hide SizeAll, Failures;
    OneMore(c, s.responses, Failure(request));
    var f := Failures(s.responses);
    assert c.failureLen * (f + 1) == c.failureLen * f + c.failureLen;
  }

  lemma PageKept(c: Costs, limits: Limits, s: Slice, waiting: nat, sent: seq<Response>, bytes: nat, messages: nat)
    requires waiting > 0 && Kept(c, limits, s, waiting) && Failures(sent) == Failures(s.responses)
    requires SizeAll(c, sent) == SizeAll(c, s.responses) + bytes + c.pageLen && |sent| == |s.responses| + messages + 1
    requires s.bytes + bytes <= limits.bytes && s.messages + messages <= limits.messages
    ensures Kept(c, limits, Slice(sent, s.bytes + bytes, s.messages + messages), waiting - 1)
  {
    hide SizeAll, Failures;
    var left := waiting + Failures(s.responses);
    assert c.pageLen * (left - 1) + c.pageLen == c.pageLen * left;
  }

  lemma FramesWithin(overhead: nat, ops: seq<WireOp>, maxMessages: nat, maxBytes: nat, page: DataPage)
    requires Frames(overhead, ops, maxMessages, maxBytes, page)
    ensures page.bytes == Total(overhead, page.messages) <= maxBytes && |page.messages| <= maxMessages
  {
  }

  /** How a pass ended: through its queue, stopped with requests left for later, or on an unframeable operation. */
  datatype Ending = Through(deferred: seq<Request>) | Halted(rest: seq<Request>) | Failed

  /** A pass: the slices before each request it came to and at its end, and how it ended. */
  datatype Pass = Pass(states: seq<Slice>, ending: Ending)

  /** The limits hold throughout a pass. */
  ghost predicate Bounded(limits: Limits, count: nat, states: seq<Slice>) {
    && 0 < |states| <= count + 1
    && (forall i :: 0 <= i < |states| ==> states[i].bytes <= limits.bytes && states[i].messages <= limits.messages)
  }

  /** Before each request of a pass, an equal split of what is left is no less than the first one. */
  ghost predicate FairShares(limits: Limits, count: nat, states: seq<Slice>) {
    && Bounded(limits, count, states)
    && (forall i :: 0 <= i < |states| && i < count ==>
          && EqualShare(limits, states[i], count - i).0 >= EqualShare(limits, states[0], count).0
          && EqualShare(limits, states[i], count - i).1 >= EqualShare(limits, states[0], count).1)
  }

  /** What a pass is run with. */
  datatype Setting = Setting(costs: Costs, limits: Limits, queue: seq<Request>, second: bool, served: bool,
                             plan: Planner)

  /** The share of request `i`, and what is planned for it. */
  ghost function ShareAt(t: Setting, states: seq<Slice>, i: nat): (nat, nat)
    requires Bounded(t.limits, |t.queue|, states) && i < |states| && i < |t.queue|
  {
    EqualShare(t.limits, states[i], |t.queue| - i)
  }

  ghost function PlanAt(t: Setting, states: seq<Slice>, i: nat): Planned
    requires Bounded(t.limits, |t.queue|, states) && i < |states| && i < |t.queue|
  {
    t.plan(t.second, t.queue[i], ShareAt(t, states, i), states[i])
  }

  ghost predicate DefersAt(t: Setting, states: seq<Slice>, i: nat)
    requires Bounded(t.limits, |t.queue|, states) && i < |states| && i < |t.queue|
  {
    Defers(t.costs, PlanAt(t, states, i), ShareAt(t, states, i), t.second, t.served)
  }

  /** Request `i` is deferred and nothing changes, or it is served as planned from its share. */
  ghost predicate StepAt(t: Setting, states: seq<Slice>, i: nat)
    requires Bounded(t.limits, |t.queue|, states) && i + 1 < |states|
  {
    var (planned, share) := (PlanAt(t, states, i), ShareAt(t, states, i));
    && !Stops(planned, share, t.served) && !Breaks(t.costs, planned, share, t.served)
    && (if DefersAt(t, states, i) then states[i + 1] == states[i]
        else Serves(t.costs, states[i], t.queue[i], planned, share, states[i + 1]))
  }

  /** The deferred ones of the first `n` requests. */
  ghost function Postponed(t: Setting, states: seq<Slice>, n: nat): seq<Request>
    requires Bounded(t.limits, |t.queue|, states) && n < |states|
  {
    if n == 0 then []
    else Postponed(t, states, n - 1) + if DefersAt(t, states, n - 1) then [t.queue[n - 1]] else []
  }

  /** Every request the pass came to was dealt with by its plan and share, up to where the pass ended. */
  ghost predicate Passed(t: Setting, pass: Pass) {
    && Bounded(t.limits, |t.queue|, pass.states)
    && (forall i :: 0 <= i < |pass.states| - 1 ==> StepAt(t, pass.states, i))
    && EndsAt(t, pass, |pass.states| - 1)
  }

  ghost predicate EndsAt(t: Setting, pass: Pass, n: nat)
    requires Bounded(t.limits, |t.queue|, pass.states) && n == |pass.states| - 1
  {
    match pass.ending
    case Through(deferred) => n == |t.queue| && deferred == Postponed(t, pass.states, n)
    case Halted(rest) =>
      && n < |t.queue| && Stops(PlanAt(t, pass.states, n), ShareAt(t, pass.states, n), t.served)
      && rest == [t.queue[n]] + t.queue[n + 1..] + Postponed(t, pass.states, n)
    case Failed => n < |t.queue| && Breaks(t.costs, PlanAt(t, pass.states, n), ShareAt(t, pass.states, n), t.served)
  }

  /**
   Serves a queue, each request from an equal split of what is left. The limits hold throughout, the
   split never divides by zero, and no share is below the first. Each request is served as planned,
   deferred or the end of the pass, by the exact conditions on its plan and share.
   */
  method RunPass(t: Setting, start: Slice) returns (s: Slice, ending: Ending, ghost states: seq<Slice>)
    requires t.costs.failureLen <= t.costs.pageLen && Kept(t.costs, t.limits, start, |t.queue|)
    ensures Passed(t, Pass(states, ending)) && states[0] == start && states[|states| - 1] == s
    ensures FairShares(t.limits, |t.queue|, states)
    ensures start.responses <= s.responses && Answered(start.responses) <= Answered(s.responses)
    ensures
      var done := Answered(s.responses)[|Answered(start.responses)|..];
      && (ending.Through? ==>
            && Kept(t.costs, t.limits, s, |ending.deferred|)
            && multiset(done) + multiset(ending.deferred) == multiset(t.queue)
            && (t.second ==> ending.deferred == []))
      && (ending.Halted? ==>
            && t.served && Kept(t.costs, t.limits, s, |ending.rest|)
            && multiset(done) + multiset(ending.rest) == multiset(t.queue))
  {
    hide SizeAll, Answered, Kept, Shared, FairShares, Accounted, EqualShare, Serves, Breaks, Defers;
    hide StepAt, PlanAt, ShareAt, DefersAt, Postponed, SoFar, Bounded, Passed;
    var (c, limits, queue) := (t.costs, t.limits, t.queue);
    s, states := start, [start];
    ghost var done: seq<Request> := [];
    var deferred: seq<Request> := [];
    assert Answered(start.responses) + [] == Answered(start.responses);
    KeptWithin(c, limits, start, |queue|);
    ghost var first := if queue == [] then (0, 0) else EqualShare(limits, start, |queue|);
    PassStart(c, limits, start, queue, first);
    SoFarStart(t, start);
    for i := 0 to |queue|
      invariant Kept(c, limits, s, |queue| - i + |deferred|)
      invariant Shared(limits, s, |queue| - i, first)
      invariant Answered(s.responses) == Answered(start.responses) + done
      invariant Accounted(queue, i, done, deferred)
      invariant (t.second ==> deferred == []) && start.responses <= s.responses
      invariant FairShares(limits, |queue|, states) && |states| == i + 1 && states[0] == start && states[i] == s
      invariant SoFar(t, states, deferred)
    {
      var left := |queue| - i;
      KeptWithin(c, limits, s, left + |deferred|);
      var share := EqualShare(limits, s, left);
      var planned := t.plan(t.second, queue[i], share, s);
      PlannedHere(t, states, i, share, planned);
      var r := ServeOne(c, limits, s, queue[i], planned, share, t.second, t.served, left + |deferred|);
      AccountedStep(queue, i, done, deferred);
      ghost var after := if r.Served? then r.slice else s;
      NextShare(limits, s, left, first, share, after);
      if r.Broken? {
        PassFailed(t, states, deferred);
        return s, Failed, states;
      }
      if r.Stopped? {
        PassHalted(t, states, deferred);
        return s, Halted([queue[i]] + queue[i + 1..] + deferred), states;
      }
      if r.Served? {
        KeptWithin(c, limits, r.slice, left + |deferred| - 1);
      }
      SoFarStep(t, states, deferred, planned, share, after);
      NextState(limits, |queue|, states, after, first);
      states := states + [after];
      if r.Deferred? {
        deferred := deferred + [queue[i]];
      } else {
        assert Answered(start.responses) + done + [queue[i]] == Answered(start.responses) + (done + [queue[i]]);
        s, done := r.slice, done + [queue[i]];
      }
    }
    AccountedEnd(queue, done, deferred);
    PassThrough(t, states, deferred);
    ending := Through(deferred);
  }

  /** The requests before the last slice were dealt with by their plans, `deferred` of them deferred. */
  ghost predicate SoFar(t: Setting, states: seq<Slice>, deferred: seq<Request>) {
    && Bounded(t.limits, |t.queue|, states)
    && (forall i :: 0 <= i < |states| - 1 ==> StepAt(t, states, i))
    && deferred == Postponed(t, states, |states| - 1)
  }

  lemma SoFarStart(t: Setting, s: Slice)
    requires s.bytes <= t.limits.bytes && s.messages <= t.limits.messages
    ensures SoFar(t, [s], [])
  {
  }

  lemma PlannedHere(t: Setting, states: seq<Slice>, i: nat, share: (nat, nat), planned: Planned)
    requires Bounded(t.limits, |t.queue|, states) || FairShares(t.limits, |t.queue|, states)
    requires |states| == i + 1 && i < |t.queue|
    requires states[i].bytes <= t.limits.bytes && states[i].messages <= t.limits.messages
    requires share == EqualShare(t.limits, states[i], |t.queue| - i)
    requires planned == t.plan(t.second, t.queue[i], share, states[i])
    ensures Bounded(t.limits, |t.queue|, states)
    ensures ShareAt(t, states, i) == share && PlanAt(t, states, i) == planned
  {
  }

  lemma SoFarStep(t: Setting, states: seq<Slice>, deferred: seq<Request>, planned: Planned, share: (nat, nat), s: Slice)
    requires SoFar(t, states, deferred) && |states| <= |t.queue|
    requires s.bytes <= t.limits.bytes && s.messages <= t.limits.messages
    requires ShareAt(t, states, |states| - 1) == share && PlanAt(t, states, |states| - 1) == planned
    requires !Stops(planned, share, t.served) && !Breaks(t.costs, planned, share, t.served)
    requires
      if Defers(t.costs, planned, share, t.second, t.served) then s == states[|states| - 1]
      else Serves(t.costs, states[|states| - 1], t.queue[|states| - 1], planned, share, s)
    ensures
      var later := Defers(t.costs, planned, share, t.second, t.served);
      SoFar(t, states + [s], if later then deferred + [t.queue[|states| - 1]] else deferred) && (later ==> !t.second)
  {
    hide Stops, Breaks, Serves, EqualShare, NothingFits;
    var (n, more) := (|states| - 1, states + [s]);
    forall i | 0 <= i <= n
      ensures ShareAt(t, more, i) == ShareAt(t, states, i) && PlanAt(t, more, i) == PlanAt(t, states, i)
      ensures DefersAt(t, more, i) == DefersAt(t, states, i)
    {
    }
    PostponedFrame(t, states, s, n);
    forall i | 0 <= i < |more| - 1
      ensures StepAt(t, more, i)
    {
      assert i < n ==> StepAt(t, states, i);
    }
  }

  lemma {:induction false} PostponedFrame(t: Setting, states: seq<Slice>, s: Slice, n: nat)
    requires Bounded(t.limits, |t.queue|, states) && Bounded(t.limits, |t.queue|, states + [s]) && n < |states|
    ensures Postponed(t, states + [s], n) == Postponed(t, states, n)
  {
    hide Defers, EqualShare;
    if n > 0 {
      PostponedFrame(t, states, s, n - 1);
    }
  }

  lemma PassFailed(t: Setting, states: seq<Slice>, deferred: seq<Request>)
    requires SoFar(t, states, deferred) && |states| <= |t.queue|
    requires
      var n := |states| - 1;
      Breaks(t.costs, PlanAt(t, states, n), ShareAt(t, states, n), t.served)
    ensures Passed(t, Pass(states, Failed))
  {
    hide StepAt, PlanAt, ShareAt, Breaks, Postponed;
  }

  lemma PassHalted(t: Setting, states: seq<Slice>, deferred: seq<Request>)
    requires SoFar(t, states, deferred) && |states| <= |t.queue|
    requires
      var n := |states| - 1;
      Stops(PlanAt(t, states, n), ShareAt(t, states, n), t.served)
    ensures
      var n := |states| - 1;
      Passed(t, Pass(states, Halted([t.queue[n]] + t.queue[n + 1..] + deferred)))
  {
    hide StepAt, PlanAt, ShareAt, Stops, Postponed;
  }

  lemma PassThrough(t: Setting, states: seq<Slice>, deferred: seq<Request>)
    requires SoFar(t, states, deferred) && |states| == |t.queue| + 1
    ensures Passed(t, Pass(states, Through(deferred)))
  {
    hide StepAt, Postponed;
  }

  lemma PassStart(c: Costs, limits: Limits, s: Slice, queue: seq<Request>, first: (nat, nat))
    requires Kept(c, limits, s, |queue|) && s.bytes <= limits.bytes && s.messages <= limits.messages
    requires first == if queue == [] then (0, 0) else EqualShare(limits, s, |queue|)
    ensures Shared(limits, s, |queue|, first) && Accounted(queue, 0, [], []) && FairShares(limits, |queue|, [s])
  {
    hide Kept, SizeAll;
    if queue != [] {
      Split(limits.bytes - s.bytes, |queue|);
      Split(limits.messages - s.messages, |queue|);
    }
  }

  lemma NextState(limits: Limits, count: nat, states: seq<Slice>, s: Slice, first: (nat, nat))
    requires FairShares(limits, count, states) && |states| <= count && first == EqualShare(limits, states[0], count)
    requires s.bytes <= limits.bytes && s.messages <= limits.messages && Shared(limits, s, count - |states|, first)
    ensures FairShares(limits, count, states + [s])
  {
    var left := count - |states|;
    if left > 0 {
      EqualSplit(limits.bytes - s.bytes, left, first.0, 0);
      EqualSplit(limits.messages - s.messages, left, first.1, 0);
    }
  }

  /** Of the first `i` requests, each is answered or deferred. */
  ghost predicate Accounted(queue: seq<Request>, i: nat, done: seq<Request>, deferred: seq<Request>)
    requires i <= |queue|
  {
    multiset(done) + multiset(deferred) == multiset(queue[..i])
  }

  lemma AccountedStep(queue: seq<Request>, i: nat, done: seq<Request>, deferred: seq<Request>)
    requires i < |queue| && Accounted(queue, i, done, deferred)
    ensures Accounted(queue, i + 1, done + [queue[i]], deferred)
    ensures Accounted(queue, i + 1, done, deferred + [queue[i]])
    ensures multiset(done) + multiset([queue[i]] + queue[i + 1..] + deferred) == multiset(queue)
  {
    assert queue[..i + 1] == queue[..i] + [queue[i]];
    assert queue == queue[..i] + ([queue[i]] + queue[i + 1..]);
    assert multiset(queue) == multiset(queue[..i]) + multiset([queue[i]] + queue[i + 1..]);
  }

  lemma AccountedEnd(queue: seq<Request>, done: seq<Request>, deferred: seq<Request>)
    requires Accounted(queue, |queue|, done, deferred)
    ensures multiset(done) + multiset(deferred) == multiset(queue)
  {
    assert queue[..|queue|] == queue;
  }

  lemma KeptWithin(c: Costs, limits: Limits, s: Slice, waiting: nat)
    requires Kept(c, limits, s, waiting) && c.failureLen <= c.pageLen
    ensures s.bytes <= limits.bytes && s.messages <= limits.messages
    ensures SizeAll(c, s.responses) <= limits.bytes && |s.responses| <= limits.messages
  {
    hide SizeAll, Failures;
    Spared(c.pageLen, c.failureLen, waiting, Failures(s.responses));
  }

  lemma Spared(page: nat, failure: nat, waiting: nat, failures: nat)
    requires failure <= page
    ensures failure * failures <= page * (waiting + failures)
  {
    Times(failures, failure, page);
    Times(page, failures, waiting + failures);
    assert failure * failures == failures * failure && page * failures == failures * page;
  }

  lemma NextShare(limits: Limits, s: Slice, left: nat, first: (nat, nat), share: (nat, nat), after: Slice)
    requires left > 0 && Shared(limits, s, left, first)
    requires s.bytes <= limits.bytes && s.messages <= limits.messages
    requires share == EqualShare(limits, s, left)
    requires s.bytes <= after.bytes <= s.bytes + share.0 && s.messages <= after.messages <= s.messages + share.1
    ensures Shared(limits, after, left - 1, first) && share.0 >= first.0 && share.1 >= first.1
  {
    EqualSplit(limits.bytes - s.bytes, left, first.0, after.bytes - s.bytes);
    EqualSplit(limits.messages - s.messages, left, first.1, after.messages - s.messages);
  }

  function ControlsOf(sizes: seq<nat>): (rs: seq<Response>)
    ensures |rs| == |sizes| && forall i :: 0 <= i < |rs| ==> rs[i] == Control(sizes[i])
  {
    if sizes == [] then [] else ControlsOf(sizes[..|sizes| - 1]) + [Control(sizes[|sizes| - 1])]
  }

  function Plus(sizes: seq<nat>): nat {
    if sizes == [] then 0 else Plus(sizes[..|sizes| - 1]) + sizes[|sizes| - 1]
  }

  lemma {:induction false} ControlsAnswerNothing(c: Costs, sizes: seq<nat>)
    ensures Answered(ControlsOf(sizes)) == [] && Failures(ControlsOf(sizes)) == 0
    ensures SizeAll(c, ControlsOf(sizes)) == Plus(sizes)
  {
    if sizes != [] {
      ControlsAnswerNothing(c, sizes[..|sizes| - 1]);
      OneMore(c, ControlsOf(sizes[..|sizes| - 1]), Control(sizes[|sizes| - 1]));
    }
  }

  datatype Refused = ControlsTooLarge | OperationTooLarge

  /** The reply before any request: the controls, and an empty page result set aside for each. */
  function Opening(c: Costs, controls: seq<nat>, requests: seq<Request>): Slice {
    var responses := ControlsOf(controls);
    Slice(responses, SizeAll(c, responses) + |requests| * c.pageLen, |responses| + |requests|)
  }

  /** How the second pass follows the first and what the two leave. */
  ghost predicate Concludes(t: Setting, first: Pass, again: Pass, r: Result<(seq<Response>, seq<Request>), Refused>) {
    && Passed(t, first)
    && (match first.ending
        case Failed => r == Err(OperationTooLarge)
        case Halted(rest) => r == Ok((first.states[|first.states| - 1].responses, rest))
        case Through(deferred) =>
          && Passed(t.(queue := deferred, second := true), again)
          && again.states[0] == first.states[|first.states| - 1]
          && (match again.ending
              case Failed => r == Err(OperationTooLarge)
              case Halted(rest) => r == Ok((again.states[|again.states| - 1].responses, rest))
              case Through(_) => r == Ok((again.states[|again.states| - 1].responses, []))))
  }

  /** Every operation the planner can give fits some frame. */
  ghost predicate Frameable(c: Costs, plan: Planner) {
    forall second, request, share, s ::
      var planned := plan(second, request, share, s);
      planned.Plans? ==> forall op <- planned.ops :: FitsFrame(c.overhead, [op])
  }

  /** Then no pass fails. */
  lemma FrameableNeverBreaks(c: Costs, plan: Planner, second: bool, request: Request, share: (nat, nat), s: Slice,
                             served: bool)
    requires Frameable(c, plan)
    ensures !Breaks(c, plan(second, request, share, s), share, served)
  {
    hide FitsFrame, Within, Pack;
  }

  lemma NeverFails(t: Setting, pass: Pass)
    requires Passed(t, pass) && Frameable(t.costs, t.plan)
    ensures !pass.ending.Failed?
  {
    hide Frameable, Breaks, Stops, StepAt, EqualShare;
    var n := |pass.states| - 1;
    if n < |t.queue| {
      FrameableNeverBreaks(t.costs, t.plan, t.second, t.queue[n], ShareAt(t, pass.states, n), pass.states[n], t.served);
    }
  }

  /**
   A slice of a reply: the controls, then every request answered once, in two passes over shares of what
   the limits leave. A served stream may stop early and keep the unanswered requests for the next slice.
   The slice is refused exactly when the controls with the empty page results exceed the limits, or when
   the plan of a request the passes come to has an operation that no frame can hold.
   */
  method FinishSlice(c: Costs, limits: Limits, controls: seq<nat>, requests: seq<Request>, served: bool, plan: Planner)
    returns (r: Result<(seq<Response>, seq<Request>), Refused>, ghost first: Pass, ghost again: Pass)
    requires c.failureLen <= c.pageLen
    ensures r.Ok? ==>
      && SizeAll(c, r.value.0) <= limits.bytes && |r.value.0| <= limits.messages
      && multiset(Answered(r.value.0)) + multiset(r.value.1) == multiset(requests)
      && (!served ==> r.value.1 == [])
    ensures r == Err(ControlsTooLarge) <==>
      Plus(controls) + |requests| * c.pageLen > limits.bytes || |controls| + |requests| > limits.messages
    ensures r.Ok? ==>
      |controls| <= |r.value.0| && forall i :: 0 <= i < |controls| ==> r.value.0[i] == Control(controls[i])
    ensures r != Err(ControlsTooLarge) ==>
      && Concludes(Setting(c, limits, requests, false, served, plan), first, again, r)
      && first.states[0] == Opening(c, controls, requests) && FairShares(limits, |requests|, first.states)
      && (first.ending.Through? ==> FairShares(limits, |first.ending.deferred|, again.states))
    ensures r != Err(ControlsTooLarge) && Frameable(c, plan) ==> r.Ok?
  {
    hide SizeAll, Answered, Kept, ControlsOf, FairShares, Passed, Frameable;
    var s := Opening(c, controls, requests);
    ControlsAnswerNothing(c, controls);
    var t := Setting(c, limits, requests, false, served, plan);
    first, again := Pass([s], Failed), Pass([s], Failed);
    if s.bytes > limits.bytes || s.messages > limits.messages {
      return Err(ControlsTooLarge), first, again;
    }
    assert Kept(c, limits, s, |requests|) by { StartKept(c, limits, s, |requests|); }
    var s1, ending, states := RunPass(t, s);
    first := Pass(states, ending);
    if Frameable(c, plan) {
      NeverFails(t, first);
    }
    if ending.Failed? {
      return Err(OperationTooLarge), first, again;
    }
    ghost var done := Answered(s1.responses)[0..];
    assert done == Answered(s1.responses);
    if ending.Halted? {
      KeptWithin(c, limits, s1, |ending.rest|);
      return Ok((s1.responses, ending.rest)), first, again;
    }
    var t2 := t.(queue := ending.deferred, second := true);
    var s2, ending2, later := RunPass(t2, s1);
    again := Pass(later, ending2);
    if Frameable(c, plan) {
      NeverFails(t2, again);
    }
    if ending2.Failed? {
      return Err(OperationTooLarge), first, again;
    }
    var rest := if ending2.Halted? then ending2.rest else [];
    KeptWithin(c, limits, s2, |rest|);
    ghost var more := Answered(s2.responses)[|done|..];
    assert Answered(s2.responses) == done + more;
    Together(done, more, ending.deferred, rest, requests);
    return Ok((s2.responses, rest)), first, again;
  }

  // ---- the share of a deferred request ----

  /** The first pass went through, and the second serves what it deferred. */
  ghost predicate Twice(t: Setting, first: Pass, again: Pass) {
    && Passed(t, first) && first.ending.Through?
    && Passed(t.(queue := first.ending.deferred, second := true), again)
    && again.states[0] == first.states[|t.queue|]
  }

  /** Request `i` was deferred and is the `j`-th the second pass comes to. */
  ghost predicate ComesAgain(t: Setting, first: Pass, again: Pass, i: nat, j: nat)
    requires Twice(t, first, again)
  {
    i < |t.queue| && DefersAt(t, first.states, i) && j == |Postponed(t, first.states, i)| && j < |again.states|
  }

  lemma {:induction false} PostponedAt(t: Setting, states: seq<Slice>, i: nat, n: nat)
    requires Bounded(t.limits, |t.queue|, states) && i < n < |states| && DefersAt(t, states, i)
    ensures
      var (j, all) := (|Postponed(t, states, i)|, Postponed(t, states, n));
      j < |all| && all[j] == t.queue[i]
  {
    hide DefersAt;
    if i + 1 < n {
      PostponedAt(t, states, i, n - 1);
    }
  }

  /** An equal split of `room` among `left` is at least `share` exactly when there is that much for each. */
  lemma SplitReaches(room: nat, left: nat, share: nat)
    requires left > 0
    ensures room / left >= share <==> left * share <= room
  {
    Split(room, left);
    if room / left >= share {
      Times(left, share, room / left);
    } else {
      Times(left, room / left + 1, share);
    }
  }

  /**
   Coming again, a request has at least its first share exactly when the limits still hold that much
   for it and each request behind it. That is so whenever what was spent in between comes to no more
   than that share for each request that waits no longer.
   */
  lemma SecondShare(t: Setting, first: Pass, again: Pass, i: nat, j: nat)
    requires Twice(t, first, again) && ComesAgain(t, first, again, i, j)
    ensures j < |first.ending.deferred| && first.ending.deferred[j] == t.queue[i]
    ensures
      var t2 := t.(queue := first.ending.deferred, second := true);
      var (share, later, left) := (ShareAt(t, first.states, i), ShareAt(t2, again.states, j), |t2.queue| - j);
      var (s, s2) := (first.states[i], again.states[j]);
      && (later.0 >= share.0 <==> s2.bytes + left * share.0 <= t.limits.bytes)
      && (later.1 >= share.1 <==> s2.messages + left * share.1 <= t.limits.messages)
      && (s2.bytes - s.bytes <= share.0 * (|t.queue| - i - left) ==> later.0 >= share.0)
      && (s2.messages - s.messages <= share.1 * (|t.queue| - i - left) ==> later.1 >= share.1)
  {
    hide DefersAt, StepAt, Postponed, EqualShare;
    PostponedAt(t, first.states, i, |t.queue|);
    var t2 := t.(queue := first.ending.deferred, second := true);
    var left := |t2.queue| - j;
    SharesAgree(t.limits, first.states[i], |t.queue| - i, again.states[j], left);
  }

  lemma SharesAgree(limits: Limits, s: Slice, n: nat, s2: Slice, left: nat)
    requires n > 0 && left > 0 && s.bytes <= limits.bytes && s.messages <= limits.messages
    requires s2.bytes <= limits.bytes && s2.messages <= limits.messages
    ensures
      var (share, later) := (EqualShare(limits, s, n), EqualShare(limits, s2, left));
      && (later.0 >= share.0 <==> s2.bytes + left * share.0 <= limits.bytes)
      && (later.1 >= share.1 <==> s2.messages + left * share.1 <= limits.messages)
      && (s2.bytes - s.bytes <= share.0 * (n - left) ==> later.0 >= share.0)
      && (s2.messages - s.messages <= share.1 * (n - left) ==> later.1 >= share.1)
  {
    var share := EqualShare(limits, s, n);
    SplitReaches(limits.bytes - s2.bytes, left, share.0);
    SplitReaches(limits.messages - s2.messages, left, share.1);
    Split(limits.bytes - s.bytes, n);
    Split(limits.messages - s.messages, n);
    assert share.0 * (n - left) + left * share.0 == n * share.0;
    assert share.1 * (n - left) + left * share.1 == n * share.1;
  }

  /** A plan whose first request has nothing to send yet, and whose others fill their share with their page. */
  function Greedy(second: bool, request: Request, share: (nat, nat), s: Slice): Planned {
    if request == 0 then Plans(0, [], true, false, false) else Plans(share.0, [], false, true, false)
  }

  const CROWDED: Setting := Setting(Costs(0, 0, 0), Limits(10, 4), [0, 1], false, false, Greedy)
  const BEFORE: Slice := Slice([], 0, 2)
  const BETWEEN: Slice := Slice([PageResult(1, 10, false)], 10, 2)
  const AFTER: Slice := Slice([PageResult(1, 10, false), PageResult(0, 0, true)], 10, 2)

  lemma CrowdedFirst(first: Pass)
    requires first == Pass([BEFORE, BEFORE, BETWEEN], Through([0]))
    ensures Passed(CROWDED, first) && DefersAt(CROWDED, first.states, 0) && ShareAt(CROWDED, first.states, 0) == (5, 1)
  {
    hide Serves, GetsStuck;
    var (t, states) := (CROWDED, first.states);
    assert ShareAt(t, states, 0) == (5, 1) && ShareAt(t, states, 1) == (10, 2);
    GreedyPage(t.costs, BEFORE, 0, (5, 1), PlanAt(t, states, 0), Slice([PageResult(0, 0, true)], 0, 2));
    GreedyPage(t.costs, BEFORE, 1, (10, 2), PlanAt(t, states, 1), BETWEEN);
    assert DefersAt(t, states, 0) && !DefersAt(t, states, 1);
    assert Postponed(t, states, 1) == [0];
  }

  lemma CrowdedAgain(t: Setting, again: Pass)
    requires t == CROWDED.(queue := [0], second := true) && again == Pass([BETWEEN, AFTER], Through([]))
    ensures Passed(t, again) && ShareAt(t, again.states, 0) == (0, 2)
  {
    hide Serves, GetsStuck;
    var states := again.states;
    assert ShareAt(t, states, 0) == (0, 2);
    GreedyPage(t.costs, BETWEEN, 0, (0, 2), PlanAt(t, states, 0), AFTER);
    assert Postponed(t, states, 1) == [];
  }

  /** Deferred, the first of two requests can come to an empty share: the other spends all that is left. */
  lemma SecondShareCanVanish() returns (t: Setting, first: Pass, again: Pass)
    ensures Twice(t, first, again) && ComesAgain(t, first, again, 0, 0) && first.ending.deferred == [0]
    ensures
      var t2 := t.(queue := first.ending.deferred, second := true);
      ShareAt(t, first.states, 0).0 == 5 && ShareAt(t2, again.states, 0).0 == 0
  {
    hide Passed, DefersAt, ShareAt;
    t, first, again := CROWDED, Pass([BEFORE, BEFORE, BETWEEN], Through([0])), Pass([BETWEEN, AFTER], Through([]));
    CrowdedFirst(first);
    CrowdedAgain(t.(queue := [0], second := true), again);
  }

  lemma GreedyPage(c: Costs, s: Slice, request: Request, share: (nat, nat), planned: Planned, after: Slice)
    requires planned.Plans? && planned.ops == [] && planned.extra <= share.0
    requires
      var page := PageResult(request, planned.extra, planned.more);
      after == Slice(s.responses + [page], s.bytes + planned.extra, s.messages)
    ensures Serves(c, s, request, planned, share, after)
    ensures !GetsStuck(c.overhead, planned.ops, share.1, share.0 - planned.extra)
  {
    var page := DataPage([], 0, false);
    assert planned.ops[..0] == [];
    PackNone(c.overhead, planned.ops);
    assert Frames(c.overhead, planned.ops, share.1, share.0 - planned.extra, page);
    assert s.responses + DataOf(page.messages) == s.responses;
  }

  lemma StartKept(c: Costs, limits: Limits, s: Slice, waiting: nat)
    requires s.bytes == SizeAll(c, s.responses) + waiting * c.pageLen && s.messages == |s.responses| + waiting
    requires Failures(s.responses) == 0
    requires s.bytes <= limits.bytes && s.messages <= limits.messages
    ensures Kept(c, limits, s, waiting)
  {
  }

  lemma Together(done: seq<Request>, more: seq<Request>, deferred: seq<Request>, rest: seq<Request>, all: seq<Request>)
    requires multiset(done) + multiset(deferred) == multiset(all)
    requires multiset(more) + multiset(rest) == multiset(deferred)
    ensures multiset(done + more) + multiset(rest) == multiset(all)
  {
  }
}
