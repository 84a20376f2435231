/**
 Integrity verdicts kept while admission goes on. Every method is one critical section; a step
 begins, reads its own snapshot outside the lock and finishes, and anything may happen between.
 */
module Inspections {
  import opened Prelude
  import opened IntegrityScan

  /** The genesis of a branch and its data epoch. */
  type Key = (OpId, nat)

  datatype Integrity = Unknown | InProgress(holes: Holes) | Damaged(holes: Holes) | Intact

  datatype Found = Found(holes: Holes, checked: Option<OpId>)

  datatype State =
    | Scanning(cursor: Cursor, found: Found, stepping: Option<nat>)
    | Incomplete(found: Found)
    | Whole

  datatype Entry = Entry(key: Key, state: State)

  const NOTHING_FOUND: Found := Found(map[], None)

  function StartEntry(key: Key): Entry {
    Entry(key, Scanning(START, NOTHING_FOUND, None))
  }

  /** A complete list of holes: it may name more, never fewer. */
  ghost predicate Covers(s: Snap, holes: Holes) {
    forall h :: IsHole(s, h) ==> h in holes
  }

  ghost predicate AllNamed(s: Snap, holes: Holes) {
    forall h <- holes :: Named(s, h)
  }

  /** What a state claims of the topic as it is now. */
  ghost predicate Truthful(now: Snap, state: State) {
    match state
    case Scanning(cursor, found, _) =>
      && CursorFits(now, cursor) && Rooted(now, cursor)
      && Checked(now, cursor, found.holes) && AllNamed(now, found.holes)
    case Incomplete(found) => Covers(now, found.holes) && AllNamed(now, found.holes) && found.holes != map[]
    case Whole => Covers(now, map[])
  }

  lemma GrowsNamed(s: Snap, t: Snap, holes: Holes, c: Cursor)
    requires Grows(s, t)
    ensures AllNamed(s, holes) ==> AllNamed(t, holes)
    ensures Rooted(s, c) ==> Rooted(t, c)
  {
    hide Resolvable, Clean;
    forall h | h in holes && Named(s, h)
      ensures Named(t, h)
    {
      if h !in s.ids {
        var y :| y in s.ids && h in Deps(s, y);
        GrowsKeeps(s, t, y);
        assert y in t.ids && h in Deps(t, y);
      }
    }
  }

  lemma StartIsTruthful(now: Snap, key: Key)
    ensures Truthful(now, StartEntry(key).state)
  {
  }

  lemma TruthfulGrows(s: Snap, t: Snap, state: State)
    requires Grows(s, t) && Truthful(s, state)
    ensures Truthful(t, state)
  {
    hide Grows, CursorFits, Checked, IsHole, AllNamed, Rooted;
    match state
    case Scanning(cursor, found, _) =>
      GrowsNamed(s, t, found.holes, cursor);
      GrowsFits(s, t, cursor);
      GrowsChecked(s, t, cursor, found.holes);
    case Incomplete(found) =>
      GrowsNamed(s, t, found.holes, START);
      forall h | IsHole(t, h)
        ensures h in found.holes
      {
        GrowsNoHole(s, t, h);
      }
    case Whole =>
      forall h | IsHole(t, h)
        ensures false
      {
        GrowsNoHole(s, t, h);
      }
  }

  lemma DoneCovers(s: Snap, now: Snap, c: Cursor, holes: Holes)
    requires Grows(s, now) && Finished(s, c) && Checked(now, c, holes)
    ensures Covers(now, holes)
  {
    hide Resolvable, Deps;
    forall h | IsHole(now, h)
      ensures h in holes
    {
      GrowsNoHole(s, now, h);
      if h in now.ids {
        assert h in s.ids by { assert !Clean(now, h); }
        assert PassedId(c, h);
      } else {
        var y :| y in now.ids && h in Deps(now, y);
        GrowsNoCause(s, now, y, h);
        assert PassedEdge(c, y, h);
      }
    }
  }

  /** A resolvable id is no hole, so dropping it leaves the claim true. */
  function Without(state: State, id: OpId): State {
    match state
    case Scanning(cursor, found, stepping) => Scanning(cursor, found.(holes := found.holes - {id}), stepping)
    case Incomplete(found) =>
      if found.holes - {id} == map[] then Whole else Incomplete(found.(holes := found.holes - {id}))
    case Whole => Whole
  }

  lemma WithoutIsTruthful(now: Snap, state: State, id: OpId)
    requires Truthful(now, state) && Resolvable(now, id)
    ensures Truthful(now, Without(state, id))
  {
    hide Deps, PassedId, PassedEdge;
  }

  lemma WithoutKeepsClaim(state: State, id: OpId)
    ensures Without(state, id).Scanning? ==> state.Scanning? && Without(state, id).stepping == state.stepping
  {
  }

  function Answer(entry: Entry): Integrity {
    match entry.state
    case Whole => Intact
    case Incomplete(found) => Damaged(found.holes)
    case Scanning(cursor, found, stepping) =>
      if stepping.Some? && cursor == START && found.holes == map[] then Unknown else InProgress(found.holes)
  }

  /** Nothing is known only while the first step of a scan reads; otherwise the answer holds all that was found. */
  lemma AnswerTells(entry: Entry)
    ensures Answer(entry).Unknown? <==>
      && entry.state.Scanning? && entry.state.stepping.Some? && entry.state.found.holes == map[]
      && forall y :: !PassedId(entry.state.cursor, y)
    ensures Answer(entry).Intact? <==> entry.state.Whole?
    ensures entry.state.Incomplete? ==> Answer(entry) == Damaged(entry.state.found.holes)
    ensures Answer(entry).InProgress? ==> entry.state.Scanning? && Answer(entry).holes == entry.state.found.holes
  {
    if entry.state.Scanning? {
      PassesSomething(entry.state.cursor);
    }
  }

  /** A cursor away from the start has passed some id. */
  lemma PassesSomething(c: Cursor)
    ensures c == START <==> forall y :: !PassedId(c, y)
  {
    if c.after.Some? {
      assert PassedId(c, c.after.value);
    } else if c.open.Some? {
      assert PassedId(c, c.open.value.0);
    }
  }

  /** What an answer promises: a complete one names every hole, and intact means there is none. */
  ghost predicate Promises(now: Snap, answer: Integrity) {
    && (answer.Intact? ==> forall h :: !IsHole(now, h))
    && (answer.Damaged? ==> Covers(now, answer.holes))
  }

  lemma AnswerPromises(now: Snap, entry: Entry)
    requires Truthful(now, entry.state)
    ensures Promises(now, Answer(entry))
  {
    hide IsHole;
  }

  /** The state after a step: its holes joined to the known ones, and a verdict when it was the last. */
  function Saved(known: Found, step: Step): State {
    var found := known.(holes := Join(known.holes, step.holes));
    if !step.done then Scanning(step.cursor, found, None)
    else if found.holes == map[] then Whole
    else Incomplete(found)
  }

  /** What a step over a snapshot must have done for its result to be saved. */
  ghost predicate Stepped(read: Snap, start: Cursor, step: Step) {
    && CursorFits(read, step.cursor) && Between(read, start, step.cursor, step.holes)
    && FoundAt(read, start, step.holes) && Reopens(read, start, step.cursor)
    && (step.done ==> Finished(read, step.cursor))
  }

  lemma StoodIsStepped(read: Snap, start: Cursor, step: Step, left: nat, budget: nat)
    requires Stood(read, start, step.cursor, step.holes, left, budget)
    requires step.done ==> Finished(read, step.cursor)
    ensures Stepped(read, start, step)
  {
  }

  /** Over an older snapshot a step still finds only what the topic names now. */
  lemma SteppedNames(read: Snap, now: Snap, start: Cursor, step: Step, known: Holes)
    requires Grows(read, now) && Rooted(now, start) && AllNamed(now, known)
    requires FoundAt(read, start, step.holes) && Reopens(read, start, step.cursor)
    ensures AllNamed(now, Join(known, step.holes)) && Rooted(now, step.cursor)
  {
    hide Resolvable, Clean;
    forall h | h in step.holes
      ensures Named(now, h)
    {
      if h !in read.ids {
        var y := if start.open.Some? && h in Deps(read, start.open.value.0) then start.open.value.0
          else if start.open.Some? && h == start.open.value.0 then h
          else var y :| y in read.ids && h in Deps(read, y); y;
        GrowsKeeps(read, now, y);
        assert y in now.ids && (h == y || h in Deps(now, y));
      }
    }
  }

  lemma SavedIsTruthful(read: Snap, now: Snap, start: Cursor, known: Found, step: Step)
    requires Grows(read, now) && Stepped(read, start, step)
    requires Checked(now, start, known.holes) && Rooted(now, start) && AllNamed(now, known.holes)
    ensures Truthful(now, Saved(known, step))
  {
    hide Grows, CursorFits, Between, Finished, Checked, Covers, AllNamed, Rooted, FoundAt, Reopens;
    var holes := Join(known.holes, step.holes);
    SteppedNames(read, now, start, step, known.holes);
    JoinChecked(read, now, start, step.cursor, known.holes, step.holes, holes);
    GrowsFits(read, now, step.cursor);
    if step.done {
      DoneCovers(read, now, step.cursor, holes);
    }
  }

  function WithoutAll(state: State, ids: seq<OpId>): State {
    if ids == [] then state else Without(WithoutAll(state, ids[..|ids| - 1]), ids[|ids| - 1])
  }

  datatype Begun = Started(claim: nat, cursor: Cursor) | Answered(answer: Integrity)

  class Inspections {
    var topics: map<TopicId, Entry>
    var claims: nat
    /** The topics as they are, each under its current branch and epoch. */
    ghost var now: map<TopicId, Snap>
    ghost var keys: map<TopicId, Key>

    ghost predicate Valid()
      reads this
    {
      && keys.Keys == now.Keys
      && (forall t <- topics :: Current(t, topics[t].key) ==> Truthful(now[t], topics[t].state))
      && (forall t <- topics ::
            topics[t].state.Scanning? && topics[t].state.stepping.Some? ==> topics[t].state.stepping.value < claims)
    }

    ghost predicate Current(t: TopicId, key: Key)
      reads this
    {
      t in keys && t in now && keys[t] == key
    }

    constructor ()
      ensures Valid() && topics == map[]
    {
      topics, claims, now, keys := map[], 0, map[], map[];
    }

    /** Admission and repair add to a topic. */
    method TopicGrows(t: TopicId, ghost next: Snap)
      requires Valid() && t in now && Grows(now[t], next)
      modifies `now
      ensures Valid() && now == old(now)[t := next]
    {
      hide Grows, Truthful;
      if t in topics && Current(t, topics[t].key) {
        TruthfulGrows(now[t], next, topics[t].state);
      }
      now := now[t := next];
    }

    /** A reset or a new data epoch puts a topic under a key no scan ran under. */
    method TopicReplaced(t: TopicId, ghost key: Key, ghost next: Snap)
      requires Valid() && (t in topics ==> topics[t].key != key)
      modifies `now, `keys
      ensures Valid() && now == old(now)[t := next] && keys == old(keys)[t := key]
    {
      hide Truthful;
      now, keys := now[t := next], keys[t := key];
    }

    /** Claims the next step of a scan, or answers when it is complete or another step reads now. */
    method Begin(t: TopicId, key: Key) returns (r: Begun)
      requires Valid()
      modifies `topics, `claims
      ensures Valid()
      ensures r.Started? <==>
        (t in old(topics) && old(topics)[t].key == key ==>
           old(topics)[t].state.Scanning? && old(topics)[t].state.stepping.None?)
      ensures r.Started? ==>
        var entry := if t in old(topics) && old(topics)[t].key == key then old(topics)[t] else StartEntry(key);
        && r == Started(old(claims), entry.state.cursor)
        && topics == old(topics)[t := Entry(key, entry.state.(stepping := Some(r.claim)))]
      ensures r.Started? && Current(t, key) ==> CursorFits(now[t], r.cursor) && Rooted(now[t], r.cursor)
      ensures r.Answered? ==> topics == old(topics) && r.answer == Answer(topics[t])
      ensures r.Answered? && Current(t, key) ==> Promises(now[t], r.answer)
    {
      hide Checked, CursorFits, Covers, AllNamed, Rooted;
      var claim := claims;
      claims := claims + 1;
      var entry := if t in topics && topics[t].key == key then topics[t] else StartEntry(key);
      if Current(t, key) {
        StartIsTruthful(now[t], key);
      }
      if entry.state.Scanning? && entry.state.stepping.None? {
        topics := topics[t := entry.(state := entry.state.(stepping := Some(claim)))];
        return Started(claim, entry.state.cursor);
      }
      if Current(t, key) {
        AnswerPromises(now[t], entry);
      }
      return Answered(Answer(entry));
    }

    /**
     A step counts only for the claim that holds the scan, at the cursor it began from.
     `read` is the snapshot the step read, at any time before now.
     */
    method Finish(t: TopicId, key: Key, claim: nat, start: Cursor, step: Step, ghost read: Snap) returns (r: Integrity)
      requires Valid()
      requires Current(t, key) ==> Grows(read, now[t]) && Stepped(read, start, step)
      modifies `topics
      ensures Valid()
      ensures Current(t, key) ==> Promises(now[t], r)
      ensures !Holds(old(topics), t, key, claim, start) ==> topics == old(topics) && r == InProgress(step.holes)
      ensures topics != old(topics) ==>
        && t in old(topics) && old(topics)[t].key == key && old(topics)[t].state.Scanning?
        && old(topics)[t].state.stepping == Some(claim) && old(topics)[t].state.cursor == start
      ensures Holds(old(topics), t, key, claim, start) ==>
        topics == old(topics)[t := Entry(key, Saved(old(topics)[t].state.found, step))] && r == Answer(topics[t])
    {
      hide Checked, CursorFits, Covers, Grows, Stepped, AllNamed, Rooted;
      if !Holds(topics, t, key, claim, start) {
        return InProgress(step.holes);
      }
      var known := topics[t].state.found;
      var holes := Join(known.holes, step.holes);
      var state;
      if !step.done {
        state := Scanning(step.cursor, known.(holes := holes), None);
        r := InProgress(holes);
      } else if holes == map[] {
        state, r := Whole, Intact;
      } else {
        state, r := Incomplete(known.(holes := holes)), Damaged(holes);
      }
      if Current(t, key) {
        SavedIsTruthful(read, now[t], start, known, step);
        AnswerPromises(now[t], Entry(key, state));
      }
      topics := topics[t := Entry(key, state)];
    }

    /** A claim dropped without finishing frees the scan and keeps its cursor; a stale one does nothing. */
    method Drop(t: TopicId, key: Key, claim: nat)
      requires Valid()
      modifies `topics
      ensures Valid()
      ensures Claimed(old(topics), t, key, claim) ==>
        topics == old(topics)[t := Entry(key, old(topics)[t].state.(stepping := None))]
      ensures !Claimed(old(topics), t, key, claim) ==> topics == old(topics)
      ensures topics != old(topics) ==>
        && t in old(topics) && old(topics)[t].key == key && old(topics)[t].state.Scanning?
        && old(topics)[t].state.stepping == Some(claim)
    {
      hide Checked, CursorFits, Covers, AllNamed, Rooted;
      if Claimed(topics, t, key, claim) {
        topics := topics[t := Entry(key, topics[t].state.(stepping := None))];
      }
    }

    /** The next slice of cached holes to look for again. */
    method NextSlice(t: TopicId, key: Key, most: nat) returns (slice: Option<seq<OpId>>)
      requires Valid()
      modifies `topics
      ensures Valid()
      ensures slice.Some? <==> t in old(topics) && old(topics)[t].key == key && !old(topics)[t].state.Whole?
      ensures slice.Some? ==>
        var found := old(topics)[t].state.found;
        && Listing(found.holes.Keys, found.checked, Max(most, 1), slice.value)
        && topics == old(topics)[t := Entry(key, old(topics)[t].state.(found := found.(checked :=
             if |slice.value| < Max(most, 1) then None else Some(slice.value[|slice.value| - 1]))))]
      ensures slice.None? ==> topics == old(topics)
    {
      hide Checked, CursorFits, Covers, Listing, AllNamed, Rooted;
      if t !in topics || topics[t].key != key || topics[t].state.Whole? {
        return None;
      }
      var found := topics[t].state.found;
      var ids := List(found.holes.Keys, found.checked, Max(most, 1));
      var checked := if |ids| < Max(most, 1) then None else Some(ids[|ids| - 1]);
      topics := topics[t := Entry(key, topics[t].state.(found := found.(checked := checked)))];
      return Some(ids);
    }

    /** Takes ids resolvable now out of the cached holes of this key. */
    method Remove(t: TopicId, key: Key, stored: seq<OpId>)
      requires Valid()
      requires Current(t, key) ==> forall id <- stored :: Resolvable(now[t], id)
      modifies `topics
      ensures Valid()
      ensures topics == if t in old(topics) && old(topics)[t].key == key
        then old(topics)[t := Entry(key, WithoutAll(old(topics)[t].state, stored))] else old(topics)
    {
      hide Truthful, Resolvable, Without;
      if t in topics && topics[t].key == key {
        for i := 0 to |stored|
          invariant Valid() && t in topics && topics[t].key == key
          invariant topics == old(topics)[t := Entry(key, WithoutAll(old(topics)[t].state, stored[..i]))]
        {
          assert stored[..i + 1][..i] == stored[..i];
          WithoutKeepsClaim(topics[t].state, stored[i]);
          if Current(t, key) {
            WithoutIsTruthful(now[t], topics[t].state, stored[i]);
          }
          topics := topics[t := Entry(key, Without(topics[t].state, stored[i]))];
        }
        assert stored[..|stored|] == stored;
      }
    }

    /** The answer after a recheck. */
    method Ask(t: TopicId, key: Key) returns (r: Integrity)
      requires Valid()
      ensures Current(t, key) ==> Promises(now[t], r)
      ensures r == if t in topics && topics[t].key == key then Answer(topics[t]) else Unknown
    {
      hide Truthful, Promises;
      if t !in topics || topics[t].key != key {
        assert Current(t, key) ==> Promises(now[t], Unknown) by { UnknownPromises(); }
        return Unknown;
      }
      if Current(t, key) {
        AnswerPromises(now[t], topics[t]);
      }
      return Answer(topics[t]);
    }

    /** Begin, read and finish with nothing in between; `read` may be older than the topic is now. */
    method Advance(t: TopicId, key: Key, read: Snap, most: nat) returns (r: Integrity)
      requires Valid() && Current(t, key) && Grows(read, now[t])
      modifies `topics, `claims
      ensures Valid() && Promises(now[t], r)
      ensures read == now[t] && NoHoles(read) && Idle(StateOf(old(topics), t, key)) ==>
        && t in topics && topics[t].key == key && r == Answer(topics[t])
        && Advances(read, StateOf(old(topics), t, key), topics[t].state, Max(most, 1))
    {
      hide Grows, Promises, CursorFits, Stepped, MayFit, Truthful, Stood, NoHoles, Rooted, Advances;
      var begun := Begin(t, key);
      if begun.Answered? {
        if !topics[t].state.Scanning? {
          RestsAdvance(read, topics[t].state, Max(most, 1));
        }
        return begun.answer;
      }
      ghost var was := StateOf(old(topics), t, key);
      GrowsFits(read, now[t], begun.cursor);
      var step, left := ScanStep(read, begun.cursor, most);
      StoodIsStepped(read, begun.cursor, step.value, left, Max(most, 1));
      r := Finish(t, key, begun.claim, begun.cursor, step.value, read);
      if read == now[t] && NoHoles(read) {
        StepAdvances(read, was, step.value, left, Max(most, 1));
      }
    }

    /** A slice of the cached holes loses what `read` resolves; no true hole is lost. */
    method Recheck(t: TopicId, key: Key, read: Snap, most: nat) returns (r: Integrity)
      requires Valid() && Current(t, key) && Grows(read, now[t])
      modifies `topics
      ensures Valid() && Promises(now[t], r)
      ensures read == now[t] && NoHoles(read) && t in old(topics) && old(topics)[t].key == key ==>
        && t in topics && topics[t].key == key
        && r == (if old(topics)[t].state.Whole? then Unknown else Answer(topics[t]))
        && Clears(old(topics)[t].state, topics[t].state)
    {
      hide Grows, Promises, Truthful, Listing, Resolvable, NoHoles, Clears, WithoutAll;
      ghost var held := t in topics && topics[t].key == key;
      var slice := NextSlice(t, key, most);
      if slice.None? {
        UnknownPromises();
        if held {
          ClearsNothing(topics[t].state);
        }
        return Unknown;
      }
      ghost var whole := read == now[t] && NoHoles(read);
      if whole {
        SliceResolves(read, old(topics)[t].state, slice.value, Max(most, 1));
      }
      var stored: seq<OpId> := [];
      ghost var listed := topics;
      for i := 0 to |slice.value|
        invariant Valid() && Current(t, key) && topics == listed
        invariant forall id <- stored :: Resolvable(now[t], id)
        invariant whole ==> stored == slice.value[..i]
      {
        if Resolvable(read, slice.value[i]) {
          GrowsKeeps(read, now[t], slice.value[i]);
          stored := stored + [slice.value[i]];
        }
      }
      Remove(t, key, stored);
      r := Ask(t, key);
      if whole {
        assert slice.value[..|slice.value|] == slice.value;
        SliceClears(old(topics)[t].state, slice.value, Max(most, 1));
      }
    }

    /**
     A question advances the scan and then rechecks a slice of the holes it would answer. On a
     topic without holes that nobody else inspects, each question brings the verdict nearer.
     */
    method Question(t: TopicId, key: Key, read: Snap, most: nat) returns (r: Integrity)
      requires Valid() && Current(t, key) && Grows(read, now[t])
      modifies `topics, `claims
      ensures Valid() && Promises(now[t], r)
      ensures read == now[t] && NoHoles(read) && Idle(StateOf(old(topics), t, key)) ==>
        && t in topics && topics[t].key == key && (r.Intact? <==> topics[t].state.Whole?)
        && Nears(read, StateOf(old(topics), t, key), topics[t].state, Max(most, 1))
    {
      hide Grows, Promises, Truthful, NoHoles, Work;
      r := Advance(t, key, read, most);
      if t in topics && topics[t].key == key {
        DamageIsNamed(now[t], topics[t].state);
      }
      if (r.InProgress? || r.Damaged?) && r.holes != map[] {
        r := Recheck(t, key, read, most);
      }
    }

    /**
     Asked often enough, an undamaged topic that does not change is found intact: beside the questions
     that clear the holes cached from before, one for each budget of work the scan has left, and one.
     */
    method AskUntilIntact(t: TopicId, key: Key, read: Snap, most: nat) returns (asked: nat)
      requires Valid() && Current(t, key) && read == now[t] && NoHoles(read) && Idle(StateOf(topics, t, key))
      modifies `topics, `claims
      ensures Valid() && t in topics && topics[t].key == key && topics[t].state.Whole?
      ensures
        var was := StateOf(old(topics), t, key);
        (asked - Debt(was) - 1) * Max(most, 1) <= WorkLeft(read, was)
    {
      hide Grows, Truthful, NoHoles, Debt, Work, Promises, Paid, Nears;
      var budget := Max(most, 1);
      ghost var was := StateOf(topics, t, key);
      ghost var state := was;
      asked := 0;
      ghost var scans, clears: nat := 0, 0;
      SelfGrows(read);
      PaidStart(read, was, budget);
      var intact := false;
      while !intact
        invariant Valid() && Current(t, key) && read == now[t] && state == StateOf(topics, t, key) && Idle(state)
        invariant state.Whole? && !intact ==> scans == 0
        invariant intact ==> t in topics && topics[t].key == key && topics[t].state.Whole?
        invariant asked == scans + clears && clears + Debt(state) <= Debt(was)
        invariant Paid(read, was, state, scans, budget)
        decreases !intact, state.Scanning?, WorkLeft(read, state), Debt(state)
      {
        var r := Question(t, key, read, most);
        NearsMeans(read, state, topics[t].state, budget);
        PaidStep(read, was, state, topics[t].state, scans, budget);
        if state.Incomplete? {
          clears := clears + 1;
        } else {
          scans := scans + 1;
        }
        state, intact, asked := topics[t].state, r.Intact?, asked + 1;
      }
      PaidEnd(read, was, state, scans, budget, asked - Debt(was));
    }
  }

  // ---- progress on a topic without holes ----

  ghost predicate NoHoles(s: Snap) {
    forall h :: !IsHole(s, h)
  }

  /** The state a question finds. */
  function StateOf(topics: map<TopicId, Entry>, t: TopicId, key: Key): State {
    if t in topics && topics[t].key == key then topics[t].state else StartEntry(key).state
  }

  /** No step is under way. */
  predicate Idle(state: State) {
    state.Scanning? ==> state.stepping.None?
  }

  ghost function WorkLeft(s: Snap, state: State): nat {
    if state.Scanning? then Work(s, state.cursor) else 0
  }

  /** How many questions the cached holes may take: two for each, and one for a slice that starts late. */
  ghost function Debt(state: State): nat {
    if state.Whole? || state.found.holes == map[] then 0
    else 2 * |state.found.holes| + if state.found.checked.Some? then 1 else 0
  }

  /** A scan spends a budget of its work or ends on what was cached; a verdict stays. */
  ghost predicate Advances(s: Snap, was: State, next: State, budget: nat) {
    if !was.Scanning? then next == was
    else
      || (next.Scanning? && Idle(next) && next.found == was.found && WorkLeft(s, next) + budget == WorkLeft(s, was))
      || next == if was.found.holes == map[] then Whole else Incomplete(was.found)
  }

  /** A recheck of cached holes that are all stored lowers the debt and leaves the scan where it was. */
  ghost predicate Clears(was: State, next: State) {
    && (was.Scanning? ==> next.Scanning? && next.cursor == was.cursor && next.stepping == was.stepping)
    && (!was.Scanning? ==> !next.Scanning?)
    && Debt(next) <= Debt(was)
    && (!was.Whole? && was.found.holes != map[] ==> Debt(next) < Debt(was))
    && (next.Incomplete? && was.Incomplete? && was.found.holes != map[] ==> next.found.holes != map[])
  }

  /** One question: a scan comes nearer its end, after it the cached holes go, and an intact verdict stays. */
  ghost predicate Nears(s: Snap, was: State, next: State, budget: nat) {
    && Idle(next) && Debt(next) <= Debt(was)
    && (was.Scanning? ==> !next.Scanning? || WorkLeft(s, next) + budget == WorkLeft(s, was))
    && (was.Incomplete? ==> !next.Scanning? && Debt(next) < Debt(was))
    && (was.Whole? ==> next.Whole?)
  }

  lemma RestsAdvance(s: Snap, state: State, budget: nat)
    requires !state.Scanning?
    ensures Advances(s, state, state, budget)
  {
  }

  lemma StepAdvances(s: Snap, was: State, step: Step, left: nat, budget: nat)
    requires NoHoles(s) && was.Scanning? && Idle(was) && Rooted(s, was.cursor)
    requires Stood(s, was.cursor, step.cursor, step.holes, left, budget) && (!step.done ==> left == 0)
    ensures Advances(s, was, Saved(was.found, step), budget)
  {
    hide Between, Dated, CursorFits, Work, FoundAt, Reopens, IsHole;
    assert step.holes == map[];
    assert Join(was.found.holes, step.holes) == was.found.holes;
  }

  lemma DamageIsNamed(now: Snap, state: State)
    requires Truthful(now, state)
    ensures state.Incomplete? ==> state.found.holes != map[]
  {
  }

  lemma ClearsNothing(state: State)
    requires state.Whole?
    ensures Clears(state, state)
  {
  }

  /** What is cached of a topic without holes is stored by now. */
  lemma SliceResolves(now: Snap, state: State, slice: seq<OpId>, limit: nat)
    requires NoHoles(now) && Truthful(now, state) && !state.Whole?
    requires Listing(state.found.holes.Keys, state.found.checked, limit, slice)
    ensures forall i :: 0 <= i < |slice| ==> Resolvable(now, slice[i])
  {
    hide Resolvable, Deps, Covers, Checked, CursorFits, Rooted;
    forall i | 0 <= i < |slice|
      ensures Resolvable(now, slice[i])
    {
      assert slice[i] in state.found.holes && !IsHole(now, slice[i]);
    }
  }

  function Dropped(state: State, ids: set<OpId>): State {
    match state
    case Scanning(cursor, found, stepping) => Scanning(cursor, found.(holes := found.holes - ids), stepping)
    case Incomplete(found) =>
      if ids == {} then state
      else if found.holes - ids == map[] then Whole else Incomplete(found.(holes := found.holes - ids))
    case Whole => Whole
  }

  lemma {:induction false} WithoutAllIsDropped(state: State, ids: seq<OpId>)
    ensures WithoutAll(state, ids) == Dropped(state, SetOf(ids))
  {
    if ids == [] {
      assert SetOf(ids) == {};
      assert !state.Whole? ==> state.found.holes - {} == state.found.holes;
    } else {
      var (init, last) := (ids[..|ids| - 1], ids[|ids| - 1]);
      WithoutAllIsDropped(state, init);
      assert ids == init + [last];
      SetOfMore(init, last);
      assert !state.Whole? ==> state.found.holes - SetOf(init) - {last} == state.found.holes - SetOf(ids);
    }
  }

  lemma SliceClears(was: State, slice: seq<OpId>, limit: nat)
    requires !was.Whole? && limit > 0 && Listing(was.found.holes.Keys, was.found.checked, limit, slice)
    ensures
      var checked := if |slice| < limit then None else Some(slice[|slice| - 1]);
      Clears(was, WithoutAll(was.(found := was.found.(checked := checked)), slice))
  {
    hide SetOf, WithoutAll, Listing, Dropped, Clears;
    var checked := if |slice| < limit then None else Some(slice[|slice| - 1]);
    WithoutAllIsDropped(was.(found := was.found.(checked := checked)), slice);
    SliceSize(was.found.holes, was.found.checked, limit, slice);
    if was.Scanning? {
      DropsScanning(was, SetOf(slice), |slice|, checked);
    } else {
      DropsIncomplete(was, SetOf(slice), |slice|, checked);
    }
  }

  lemma DropsScanning(was: State, ids: set<OpId>, n: nat, checked: Option<OpId>)
    requires was.Scanning? && |was.found.holes - ids| == |was.found.holes| - n
    requires n == 0 ==> checked.None? && (was.found.holes == map[] || was.found.checked.Some?)
    ensures Clears(was, Dropped(was.(found := was.found.(checked := checked)), ids))
  {
  }

  lemma DropsIncomplete(was: State, ids: set<OpId>, n: nat, checked: Option<OpId>)
    requires was.Incomplete? && |was.found.holes - ids| == |was.found.holes| - n
    requires n == 0 ==>
      ids == {} && checked.None? && was.found.holes - ids == was.found.holes
      && (was.found.holes == map[] || was.found.checked.Some?)
    requires n > 0 ==> ids != {}
    ensures Clears(was, Dropped(was.(found := was.found.(checked := checked)), ids))
  {
  }

  lemma SliceSize(holes: Holes, after: Option<OpId>, limit: nat, slice: seq<OpId>)
    requires limit > 0 && Listing(holes.Keys, after, limit, slice)
    ensures |holes - SetOf(slice)| == |holes| - |slice|
    ensures slice == [] ==> SetOf(slice) == {} && holes - SetOf(slice) == holes && (holes == map[] || after.Some?)
    ensures slice != [] ==> SetOf(slice) != {}
  {
    var ids := SetOf(slice);
    DistinctSize(slice);
    MinusSize(holes.Keys, ids);
    assert (holes - ids).Keys == holes.Keys - ids;
    if holes != map[] && slice == [] {
      var h :| h in holes;
    }
    assert slice != [] ==> slice[0] in ids;
  }

  lemma MinusSize(a: set<OpId>, b: set<OpId>)
    requires b <= a
    ensures |a - b| == |a| - |b|
  {
  }

  /** In all, at most two questions for each hole cached before, two more, and one for each budget of work left. */
  lemma QuestionsBound(s: Snap, was: State, budget: nat, asked: nat)
    requires budget > 0 && (asked - Debt(was) - 1) * budget <= WorkLeft(s, was)
    ensures
      var cached := if was.Whole? then 0 else |was.found.holes|;
      (asked - 2 * cached - 2) * budget <= WorkLeft(s, was)
  {
    hide Work;
    Times(budget, asked - 2 * (if was.Whole? then 0 else |was.found.holes|) - 2, asked - Debt(was) - 1);
  }

  /** Each question so far but one paid for a whole budget of the work. */
  ghost predicate Paid(s: Snap, was: State, state: State, scans: nat, budget: nat) {
    if state.Scanning? then scans * budget + WorkLeft(s, state) <= WorkLeft(s, was)
    else (scans - 1) * budget <= WorkLeft(s, was)
  }

  lemma PaidStart(s: Snap, was: State, budget: nat)
    ensures Paid(s, was, was, 0, budget)
  {
    hide Work;
  }

  lemma PaidStep(s: Snap, was: State, state: State, next: State, scans: nat, budget: nat)
    requires Paid(s, was, state, scans, budget) && Nears(s, state, next, budget) && (state.Whole? ==> scans == 0)
    ensures Paid(s, was, next, if state.Incomplete? then scans else scans + 1, budget)
  {
    hide Work, Debt;
    StepCost(scans, budget);
  }

  lemma PaidEnd(s: Snap, was: State, state: State, scans: nat, budget: nat, asked: int)
    requires Paid(s, was, state, scans, budget) && !state.Scanning? && asked <= scans
    ensures (asked - 1) * budget <= WorkLeft(s, was)
  {
    hide Work;
    Times(budget, asked - 1, scans - 1);
  }

  lemma NearsMeans(s: Snap, was: State, next: State, budget: nat)
    requires Nears(s, was, next, budget)
    ensures Idle(next) && Debt(next) <= Debt(was)
    ensures was.Scanning? && next.Scanning? ==> WorkLeft(s, next) + budget == WorkLeft(s, was)
    ensures was.Incomplete? ==> !next.Scanning? && Debt(next) < Debt(was)
    ensures was.Whole? ==> next.Whole?
  {
  }

  lemma SelfGrows(s: Snap)
    ensures Grows(s, s)
  {
  }

  lemma UnknownPromises()
    ensures forall s :: Promises(s, Unknown)
  {
  }

  /** The claim holds the scan of the topic under its key. */
  predicate Claimed(topics: map<TopicId, Entry>, t: TopicId, key: Key, claim: nat) {
    t in topics && topics[t].key == key && topics[t].state.Scanning? && topics[t].state.stepping == Some(claim)
  }

  predicate Holds(topics: map<TopicId, Entry>, t: TopicId, key: Key, claim: nat, start: Cursor) {
    Claimed(topics, t, key, claim) && topics[t].state.cursor == start
  }
}
