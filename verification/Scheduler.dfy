/**
 The resync scheduler: revisions of targets, attempts that own them, and turns that are fair
 between peers. Every method is one critical section, so keeping the invariant over
 each of them keeps it over every run.
 */
module Scheduler {
  import opened Prelude

  type Instant = nat
  type Attempt = nat

  datatype Key = Key(peer: PeerId, topic: TopicId)

  /** One claimed target, with the revision and the force request its attempt covers. */
  datatype Claim = Claim(key: Key, attempt: Attempt, covered: nat, force: Option<nat>)

  datatype Scheduled = Scheduled(due: Instant, failures: nat, requested: nat, active: Option<Attempt>,
                                 force: Option<nat>)

  type Targets = map<Key, Scheduled>

  const U32_MAX: nat := 0xFFFF_FFFF

  predicate KeyLess(a: Key, b: Key) {
    a.peer < b.peer || (a.peer == b.peer && a.topic < b.topic)
  }

  /** Earlier due first, then by key. */
  predicate Sooner(targets: Targets, a: Key, b: Key)
    requires a in targets && b in targets
  {
    targets[a].due < targets[b].due || (targets[a].due == targets[b].due && KeyLess(a, b))
  }

  function Busy(targets: Targets): set<PeerId> {
    set k <- targets | targets[k].active.Some? :: k.peer
  }

  /** Due, unclaimed, and of a peer that takes no turn now. */
  predicate Ready(targets: Targets, now: Instant, k: Key) {
    k in targets && targets[k].active.None? && targets[k].due <= now && k.peer !in Busy(targets)
  }

  ghost predicate SortedReady(targets: Targets, now: Instant, ready: seq<Key>) {
    && (forall k :: k in ready <==> Ready(targets, now, k))
    && (forall i, j :: 0 <= i < j < |ready| ==>
          ready[i] in targets && ready[j] in targets && Sooner(targets, ready[i], ready[j]))
  }

  method SortReady(targets: Targets, now: Instant) returns (ready: seq<Key>)
    ensures SortedReady(targets, now, ready)
  {
    hide Ready, Sooner;
    ready := [];
    assert forall k :: Ready(targets, now, k) ==> k in targets by { ReadyIsTarget(targets, now); }
    var left := set k <- targets | Ready(targets, now, k);
    while left != {}
      invariant forall k :: Ready(targets, now, k) <==> k in left || k in ready
      invariant forall i, j :: 0 <= i < j < |ready| ==>
        ready[i] in targets && ready[j] in targets && Sooner(targets, ready[i], ready[j])
      invariant forall i, k :: 0 <= i < |ready| && k in left ==> ready[i] in targets && Sooner(targets, ready[i], k)
      decreases left
    {
      var k := Soonest(targets, left);
      ready := ready + [k];
      left := left - {k};
    }
  }

  lemma ReadyIsTarget(targets: Targets, now: Instant)
    ensures forall k :: Ready(targets, now, k) ==> k in targets
  {
  }

  method Soonest(targets: Targets, keys: set<Key>) returns (k: Key)
    requires keys != {} && keys <= targets.Keys
    ensures k in keys && forall x <- keys :: x != k ==> Sooner(targets, k, x)
  {
    k :| k in keys;
    var rest := keys - {k};
    while rest != {}
      invariant k in keys && rest <= keys && forall x <- keys :: x in rest || x == k || Sooner(targets, k, x)
      decreases rest
    {
      var x :| x in rest;
      if Sooner(targets, x, k) {
        k := x;
      }
      rest := rest - {x};
    }
  }

  // ---- turns ----

  type Turns = map<PeerId, seq<Key>>

  /** `a` comes before `b` in the list. */
  ghost predicate Ahead(ready: seq<Key>, a: Key, b: Key) {
    exists i, j :: 0 <= i < j < |ready| && ready[i] == a && ready[j] == b
  }

  /**
   Which of the first `n` ready targets get a turn. A peer left out means the room for peers was
   taken by peers whose first target came before; a target left out of a served peer's turn means
   the turn was full of earlier ones.
   */
  ghost predicate Fair(ready: seq<Key>, n: nat, turns: Turns, maxPeers: nat, maxTargets: nat)
    requires n <= |ready|
  {
    && Roomy(turns, maxPeers, maxTargets)
    && Drawn(ready[..n], turns) && InTurn(ready, turns)
    && (forall k <- ready[..n] :: k.peer in turns || Waits(ready, turns, maxPeers, k))
    && (forall k <- ready[..n] :: k.peer in turns ==> Served(ready, turns[k.peer], maxTargets, k))
  }

  ghost predicate Roomy(turns: Turns, maxPeers: nat, maxTargets: nat) {
    |turns| <= maxPeers && forall p <- turns :: 1 <= |turns[p]| <= Max(maxTargets, 1)
  }

  ghost predicate Drawn(some: seq<Key>, turns: Turns) {
    forall p <- turns ::
      && (forall k <- turns[p] :: k.peer == p && k in some)
      && NoRepeats(turns[p])
  }

  /** A turn holds its targets in the order of the list. */
  ghost predicate InTurn(ready: seq<Key>, turns: Turns) {
    forall p, i, j :: p in turns && 0 <= i < j < |turns[p]| ==> Ahead(ready, turns[p][i], turns[p][j])
  }

  ghost predicate Served(ready: seq<Key>, turn: seq<Key>, maxTargets: nat, k: Key) {
    k in turn || (|turn| >= maxTargets && forall x <- turn :: Ahead(ready, x, k))
  }

  ghost predicate Waits(ready: seq<Key>, turns: Turns, maxPeers: nat, k: Key) {
    |turns| == maxPeers && forall q <- turns :: turns[q] != [] && Ahead(ready, turns[q][0], k)
  }

  lemma SortedIsUnique(targets: Targets, now: Instant, ready: seq<Key>)
    requires SortedReady(targets, now, ready)
    ensures NoRepeats(ready)
  {
  }

  lemma AheadOfNext(ready: seq<Key>, n: nat, x: Key)
    requires n < |ready| && x in ready[..n]
    ensures Ahead(ready, x, ready[n])
  {
    var i :| 0 <= i < n && ready[..n][i] == x;
    assert ready[i] == x;
  }

  /** The target after the first `n` joins its peer's turn, opens one, or waits. */
  function TurnStep(turns: Turns, k: Key, maxPeers: nat, maxTargets: nat): Turns {
    if k.peer in turns then
      if |turns[k.peer]| < maxTargets then turns[k.peer := turns[k.peer] + [k]] else turns
    else if |turns| < maxPeers then turns[k.peer := [k]] else turns
  }

  lemma FairStep(ready: seq<Key>, n: nat, turns: Turns, maxPeers: nat, maxTargets: nat)
    requires n < |ready| && NoRepeats(ready) && Fair(ready, n, turns, maxPeers, maxTargets)
    ensures Fair(ready, n + 1, TurnStep(turns, ready[n], maxPeers, maxTargets), maxPeers, maxTargets)
  {
    hide Ahead, NoRepeats, Roomy, Drawn, Served, Waits, TurnStep, InTurn;
    var (k, next) := (ready[n], TurnStep(turns, ready[n], maxPeers, maxTargets));
    assert ready[..n + 1] == ready[..n] + [k];
    RoomyStep(turns, k, maxPeers, maxTargets);
    DrawnStep(ready, n, turns, maxPeers, maxTargets);
    InTurnStep(ready, n, turns, maxPeers, maxTargets);
    forall x | x in ready[..n + 1]
      ensures x.peer in next || Waits(ready, next, maxPeers, x)
      ensures x.peer in next ==> Served(ready, next[x.peer], maxTargets, x)
    {
      if x == k {
        ServedNow(ready, n, turns, maxPeers, maxTargets);
      } else {
        ServedStill(ready, turns, maxPeers, maxTargets, x, k);
      }
    }
  }

  lemma RoomyStep(turns: Turns, k: Key, maxPeers: nat, maxTargets: nat)
    requires Roomy(turns, maxPeers, maxTargets)
    ensures Roomy(TurnStep(turns, k, maxPeers, maxTargets), maxPeers, maxTargets)
  {
    var next := TurnStep(turns, k, maxPeers, maxTargets);
    assert next.Keys == turns.Keys || next.Keys == turns.Keys + {k.peer};
  }

  lemma DrawnStep(ready: seq<Key>, n: nat, turns: Turns, maxPeers: nat, maxTargets: nat)
    requires n < |ready| && NoRepeats(ready) && Drawn(ready[..n], turns)
    ensures Drawn(ready[..n + 1], TurnStep(turns, ready[n], maxPeers, maxTargets))
  {
    var k := ready[n];
    assert k !in ready[..n];
    assert ready[..n + 1] == ready[..n] + [k];
  }

  lemma InTurnStep(ready: seq<Key>, n: nat, turns: Turns, maxPeers: nat, maxTargets: nat)
    requires n < |ready| && Drawn(ready[..n], turns) && InTurn(ready, turns)
    ensures InTurn(ready, TurnStep(turns, ready[n], maxPeers, maxTargets))
  {
    hide Ahead, NoRepeats;
    forall p, i | p in turns && 0 <= i < |turns[p]|
      ensures Ahead(ready, turns[p][i], ready[n])
    {
      assert turns[p][i] in turns[p];
      AheadOfNext(ready, n, turns[p][i]);
    }
  }

  /** The new target itself: it has its place, or earlier ones fill the room. */
  lemma ServedNow(ready: seq<Key>, n: nat, turns: Turns, maxPeers: nat, maxTargets: nat)
    requires n < |ready| && Drawn(ready[..n], turns) && Roomy(turns, maxPeers, maxTargets)
    ensures
      var (k, next) := (ready[n], TurnStep(turns, ready[n], maxPeers, maxTargets));
      && (k.peer in next || Waits(ready, next, maxPeers, k))
      && (k.peer in next ==> Served(ready, next[k.peer], maxTargets, k))
  {
    hide Ahead, NoRepeats;
    forall p, x | p in turns && x in turns[p]
      ensures Ahead(ready, x, ready[n])
    {
      AheadOfNext(ready, n, x);
    }
  }

  /** An earlier target stays served or waiting. */
  lemma ServedStill(ready: seq<Key>, turns: Turns, maxPeers: nat, maxTargets: nat, x: Key, k: Key)
    requires Roomy(turns, maxPeers, maxTargets)
    requires x.peer in turns || Waits(ready, turns, maxPeers, x)
    requires x.peer in turns ==> Served(ready, turns[x.peer], maxTargets, x)
    ensures
      var next := TurnStep(turns, k, maxPeers, maxTargets);
      && (x.peer in next || Waits(ready, next, maxPeers, x))
      && (x.peer in next ==> Served(ready, next[x.peer], maxTargets, x))
  {
    hide Ahead;
    var next := TurnStep(turns, k, maxPeers, maxTargets);
    assert k.peer in turns ==> next.Keys == turns.Keys;
    assert next.Keys == turns.Keys ==> |next| == |turns|;
  }

  /** Gives turns to ready targets in order, within the room for peers and for targets of a peer. */
  method GiveTurns(ready: seq<Key>, maxPeers: nat, maxTargets: nat) returns (turns: Turns)
    requires NoRepeats(ready)
    ensures Fair(ready, |ready|, turns, maxPeers, maxTargets)
  {
    hide Fair, TurnStep;
    turns := map[];
    assert Fair(ready, 0, turns, maxPeers, maxTargets) by { NoTurns(ready, maxPeers, maxTargets); }
    for n := 0 to |ready|
      invariant Fair(ready, n, turns, maxPeers, maxTargets)
    {
      FairStep(ready, n, turns, maxPeers, maxTargets);
      turns := TurnStep(turns, ready[n], maxPeers, maxTargets);
    }
  }

  lemma NoTurns(ready: seq<Key>, maxPeers: nat, maxTargets: nat)
    ensures Fair(ready, 0, map[], maxPeers, maxTargets)
  {
  }

  // ---- what the turns mean ----

  /** The target is due, and no target of its peer is claimed. */
  ghost predicate MayTake(targets: Targets, now: Instant, k: Key) {
    k in targets && targets[k].due <= now && forall j <- targets :: j.peer == k.peer ==> targets[j].active.None?
  }

  /** Due earlier, or at the same time with a smaller peer, or of the same peer with a smaller topic. */
  ghost predicate Earlier(targets: Targets, a: Key, b: Key) {
    && a in targets && b in targets
    && (targets[a].due < targets[b].due ||
        (targets[a].due == targets[b].due && (a.peer < b.peer || (a.peer == b.peer && a.topic < b.topic))))
  }

  lemma ReadyMeans(targets: Targets, now: Instant, k: Key)
    ensures Ready(targets, now, k) <==> MayTake(targets, now, k)
  {
  }

  lemma AheadMeans(targets: Targets, now: Instant, ready: seq<Key>, a: Key, b: Key)
    requires SortedReady(targets, now, ready) && Ahead(ready, a, b)
    ensures Earlier(targets, a, b)
  {
    hide Ready;
    var i, j :| 0 <= i < j < |ready| && ready[i] == a && ready[j] == b;
    assert Sooner(targets, ready[i], ready[j]);
  }

  /** Every claim is of a target that may be taken, and a peer's claims come in order. */
  ghost predicate TakesDue(targets: Targets, now: Instant, maxPeers: nat, maxTargets: nat,
                           out: seq<(PeerId, seq<Claim>)>) {
    && |out| <= maxPeers
    && (forall e <- out ::
          && 0 < |e.1| <= Max(maxTargets, 1)
          && (forall c <- e.1 :: c.key.peer == e.0 && MayTake(targets, now, c.key))
          && (forall i, j :: 0 <= i < j < |e.1| ==> Earlier(targets, e.1[i].key, e.1[j].key)))
  }

  /**
   A target that may be taken is claimed, or its peer's turn is full of earlier ones, or the peers
   served are as many as may be and each begins with an earlier target.
   */
  ghost predicate LeavesOut(targets: Targets, maxPeers: nat, maxTargets: nat, out: seq<(PeerId, seq<Claim>)>, k: Key) {
    || (exists e, c :: e in out && c in e.1 && c.key == k)
    || (exists e :: e in out && e.0 == k.peer && |e.1| >= maxTargets && forall c <- e.1 :: Earlier(targets, c.key, k))
    || (|out| == maxPeers && forall e <- out :: e.1 != [] && e.0 != k.peer && Earlier(targets, e.1[0].key, k))
  }

  /** An entry is its peer's turn, as far as ids last. */
  ghost predicate Turn(turns: Turns, whole: bool, e: (PeerId, seq<Claim>)) {
    && e.0 in turns && e.1 != [] && |e.1| <= |turns[e.0]|
    && (forall i :: 0 <= i < |e.1| ==> e.1[i].key == turns[e.0][i])
    && (whole ==> |e.1| == |turns[e.0]|)
  }

  ghost predicate Reached(out: seq<(PeerId, seq<Claim>)>, p: PeerId) {
    exists e :: e in out && e.0 == p
  }

  /** What is returned are the turns of the peers not still to do. */
  ghost predicate Returns(turns: Turns, todo: set<PeerId>, whole: bool, out: seq<(PeerId, seq<Claim>)>) {
    && (forall i, j :: 0 <= i < j < |out| ==> out[i].0 < out[j].0)
    && (forall e <- out :: Turn(turns, whole, e))
    && (whole ==> forall p <- turns :: p in todo || Reached(out, p))
  }

  lemma ReturnsNone(turns: Turns)
    ensures Returns(turns, turns.Keys, true, [])
  {
  }

  lemma ReturnsMore(b: Books, targets: Targets, turns: Turns, todo: set<PeerId>, out: seq<(PeerId, seq<Claim>)>,
                    p: PeerId, batch: seq<Claim>, whole: bool)
    requires Returns(turns, todo, true, out) && p in todo && p in turns && turns[p] != []
    requires Batch(b, targets, turns[p], batch) && (whole ==> |batch| == |turns[p]|)
    requires forall e <- out :: e.0 < p
    ensures Returns(turns, todo - {p}, whole, if batch == [] then out else out + [(p, batch)])
  {
    hide Turn, Reached, Batch;
    var more := if batch == [] then out else out + [(p, batch)];
    forall e | e in more
      ensures Turn(turns, whole, e)
    {
      NextTurn(b, targets, turns, out, p, batch, whole, e);
    }
    forall q | q in turns && q !in todo - {p} && whole
      ensures Reached(more, q)
    {
      NextReached(turns, out, p, batch, q);
    }
  }

  lemma NextTurn(b: Books, targets: Targets, turns: Turns, out: seq<(PeerId, seq<Claim>)>, p: PeerId, batch: seq<Claim>,
                 whole: bool, e: (PeerId, seq<Claim>))
    requires p in turns && Batch(b, targets, turns[p], batch) && (whole ==> |batch| == |turns[p]|)
    requires if e in out then Turn(turns, true, e) else e == (p, batch) && batch != []
    ensures Turn(turns, whole, e)
  {
  }

  lemma NextReached(turns: Turns, out: seq<(PeerId, seq<Claim>)>, p: PeerId, batch: seq<Claim>, q: PeerId)
    requires batch != [] && (q == p || Reached(out, q))
    ensures Reached(out + [(p, batch)], q)
  {
    var more := out + [(p, batch)];
    if Reached(out, q) {
      var e :| e in out && e.0 == q;
      assert e in more;
    } else {
      assert (p, batch) in more;
    }
  }

  lemma PeersReturned(turns: Turns, todo: set<PeerId>, whole: bool, out: seq<(PeerId, seq<Claim>)>)
    requires Returns(turns, todo, whole, out)
    ensures |out| <= |turns| && (whole && todo == {} ==> |out| == |turns|)
  {
    var peers := seq(|out|, i requires 0 <= i < |out| => out[i].0);
    DistinctSize(peers);
    assert SetOf(peers) <= turns.Keys by {
      assert forall i :: 0 <= i < |out| ==> out[i] in out;
    }
    SubsetSize(SetOf(peers), turns.Keys);
    if whole && todo == {} {
      forall p | p in turns
        ensures p in SetOf(peers)
      {
        assert Reached(out, p);
        var i :| 0 <= i < |out| && out[i].0 == p;
        assert peers[i] == p;
      }
      assert SetOf(peers) == turns.Keys;
    }
  }

  /** The turns given from the sorted list are of due targets, in order. */
  lemma ReturnsDue(targets: Targets, now: Instant, ready: seq<Key>, turns: Turns, todo: set<PeerId>, whole: bool,
                   maxPeers: nat, maxTargets: nat, out: seq<(PeerId, seq<Claim>)>)
    requires SortedReady(targets, now, ready) && Fair(ready, |ready|, turns, maxPeers, maxTargets)
    requires Returns(turns, todo, whole, out)
    ensures TakesDue(targets, now, maxPeers, maxTargets, out)
  {
    hide Ready, Ahead, Sooner, MayTake, Earlier, NoRepeats, Served, Waits;
    PeersReturned(turns, todo, whole, out);
    assert ready[..|ready|] == ready;
    forall e, i | e in out && 0 <= i < |e.1|
      ensures e.1[i].key.peer == e.0 && MayTake(targets, now, e.1[i].key)
    {
      assert turns[e.0][i] in turns[e.0];
      ReadyMeans(targets, now, turns[e.0][i]);
    }
    forall e, i, j | e in out && 0 <= i < j < |e.1|
      ensures Earlier(targets, e.1[i].key, e.1[j].key)
    {
      AheadMeans(targets, now, ready, turns[e.0][i], turns[e.0][j]);
    }
  }

  lemma ReturnsAll(targets: Targets, now: Instant, ready: seq<Key>, turns: Turns, maxPeers: nat, maxTargets: nat,
                   out: seq<(PeerId, seq<Claim>)>, k: Key)
    requires SortedReady(targets, now, ready) && Fair(ready, |ready|, turns, maxPeers, maxTargets)
    requires Returns(turns, {}, true, out) && MayTake(targets, now, k)
    ensures LeavesOut(targets, maxPeers, maxTargets, out, k)
  {
    hide Ready, Ahead, Sooner, MayTake, Earlier, NoRepeats, InTurn, Drawn;
    PeersReturned(turns, {}, true, out);
    ReadyMeans(targets, now, k);
    assert ready[..|ready|] == ready;
    if k.peer in turns {
      assert Reached(out, k.peer);
      var e :| e in out && e.0 == k.peer;
      if k in turns[e.0] {
        var i :| 0 <= i < |turns[e.0]| && turns[e.0][i] == k;
        assert e.1[i] in e.1;
      } else {
        forall c | c in e.1
          ensures Earlier(targets, c.key, k)
        {
          var i :| 0 <= i < |e.1| && e.1[i] == c;
          AheadMeans(targets, now, ready, turns[e.0][i], k);
        }
      }
    } else {
      forall e | e in out
        ensures Earlier(targets, e.1[0].key, k)
      {
        AheadMeans(targets, now, ready, turns[e.0][0], k);
      }
    }
  }

  // ---- claims over whole runs ----

  /** What was issued to an attempt: its claim, the requests made for the target by then, and the call. */
  datatype Issue = Issue(claim: Claim, asked: nat, call: nat)

  /**
   The run so far: every attempt issued, those whose claim was completed or handed back, how often
   work was requested for each target, and the calls that gave turns.
   */
  datatype Books = Books(issued: map<Attempt, Issue>, spent: set<Attempt>, asked: map<Key, nat>, calls: nat)

  predicate Owns(targets: Targets, k: Key, a: Attempt) {
    k in targets && targets[k].active == Some(a)
  }

  /** A claimed target has gained a revision for each request since its claim, up to the counter's cap. */
  ghost predicate Tracks(t: Scheduled, k: Key, issue: Issue, asked: nat) {
    && issue.claim.key == k
    && issue.claim.covered <= U64_MAX && issue.asked <= asked
    && t.requested == Min(issue.claim.covered + (asked - issue.asked), U64_MAX)
    && (asked == issue.asked ==> t.force == issue.claim.force)
  }

  /** The target is unclaimed, or claimed by an unspent attempt issued for it. */
  ghost predicate Accounted(k: Key, t: Scheduled, b: Books) {
    && k in b.asked && t.requested <= U64_MAX
    && (t.active.Some? ==>
          && t.active.value in b.issued && t.active.value !in b.spent
          && Tracks(t, k, b.issued[t.active.value], b.asked[k]))
  }

  /** All claimed targets of a peer were claimed in one call. */
  ghost predicate OneTurn(targets: Targets, b: Books) {
    forall j <- targets, k <- targets ::
      j.peer == k.peer && targets[j].active.Some? && targets[k].active.Some?
      && targets[j].active.value in b.issued && targets[k].active.value in b.issued ==>
        b.issued[targets[j].active.value].call == b.issued[targets[k].active.value].call
  }

  ghost predicate Sane(targets: Targets, next: Attempt, b: Books) {
    && 1 <= next <= U64_MAX
    && (forall a <- b.issued :: 1 <= a < next)
    && (forall a <- b.issued :: b.issued[a].claim.attempt == a)
    && b.spent <= b.issued.Keys
    && (forall a <- b.issued :: a !in b.spent ==> Owns(targets, b.issued[a].claim.key, a))
    && (forall k <- targets :: Accounted(k, targets[k], b))
    && OneTurn(targets, b)
  }

  /** A target has at most one unspent attempt. */
  lemma OneOwner(targets: Targets, next: Attempt, b: Books, x: Attempt, y: Attempt)
    requires Sane(targets, next, b) && x in b.issued && y in b.issued && x !in b.spent && y !in b.spent
    requires b.issued[x].claim.key == b.issued[y].claim.key
    ensures x == y
  {
    assert Owns(targets, b.issued[x].claim.key, x) && Owns(targets, b.issued[y].claim.key, y);
  }

  /** A claim is current exactly while its attempt is unspent. */
  lemma CurrentIsUnspent(targets: Targets, next: Attempt, b: Books, c: Claim)
    requires Sane(targets, next, b) && c.attempt in b.issued && b.issued[c.attempt].claim == c
    ensures Owns(targets, c.key, c.attempt) <==> c.attempt !in b.spent
  {
    if Owns(targets, c.key, c.attempt) {
      assert Accounted(c.key, targets[c.key], b);
    }
  }

  function Asked(b: Books, k: Key): nat {
    if k in b.asked then b.asked[k] else 0
  }

  /** A request for a target: one more revision, whoever owns it. */
  lemma Requests(targets: Targets, next: Attempt, b: Books, k: Key, t: Scheduled)
    requires Sane(targets, next, b)
    requires k in targets ==> t.active == targets[k].active && t.requested == Min(targets[k].requested + 1, U64_MAX)
    requires k !in targets ==> t.active.None? && t.requested <= U64_MAX
    ensures Sane(targets[k := t], next, b.(asked := b.asked[k := Asked(b, k) + 1]))
  {
    if k in targets {
      assert Accounted(k, targets[k], b);
    }
    var (b', more) := (b.(asked := b.asked[k := Asked(b, k) + 1]), targets[k := t]);
    forall j | j in more
      ensures Accounted(j, more[j], b')
    {
      if j in targets {
        assert Accounted(j, targets[j], b);
      }
    }
    forall a | a in b'.issued && a !in b'.spent
      ensures Owns(more, b'.issued[a].claim.key, a)
    {
      assert Owns(targets, b.issued[a].claim.key, a);
    }
  }

  /** Deadlines and failure counts may change without touching a claim. */
  lemma Rearms(targets: Targets, next: Attempt, b: Books, more: Targets)
    requires Sane(targets, next, b) && more.Keys == targets.Keys
    requires forall k <- targets ::
      && more[k].active == targets[k].active && more[k].force == targets[k].force
      && more[k].requested == targets[k].requested
    ensures Sane(more, next, b)
  {
    forall k | k in more
      ensures Accounted(k, more[k], b)
    {
      assert Accounted(k, targets[k], b);
    }
    forall a | a in b.issued && a !in b.spent
      ensures Owns(more, b.issued[a].claim.key, a)
    {
      assert Owns(targets, b.issued[a].claim.key, a);
    }
  }

  /** A claim that ends leaves its target unclaimed or gone. */
  lemma Ends(targets: Targets, next: Attempt, b: Books, c: Claim, less: Targets)
    requires Sane(targets, next, b) && Owns(targets, c.key, c.attempt)
    requires
      less == targets - {c.key} ||
      (less.Keys == targets.Keys && less[c.key].active.None? && less[c.key].requested == targets[c.key].requested)
    requires forall k <- less :: k != c.key ==> less[k] == targets[k]
    ensures Sane(less, next, b.(spent := b.spent + {c.attempt}))
  {
    var b' := b.(spent := b.spent + {c.attempt});
    assert Accounted(c.key, targets[c.key], b);
    forall k | k in less
      ensures Accounted(k, less[k], b')
    {
      assert Accounted(k, targets[k], b);
    }
    forall a | a in b'.issued && a !in b'.spent
      ensures Owns(less, b'.issued[a].claim.key, a)
    {
      assert Owns(targets, b.issued[a].claim.key, a);
      assert b.issued[a].claim.key == c.key ==> a == c.attempt;
    }
  }

  /** A claim of a target whose peer has no turn but this one. */
  lemma Claims(targets: Targets, next: Attempt, b: Books, k: Key)
    requires Sane(targets, next, b) && k in targets && targets[k].active.None? && next < U64_MAX
    requires forall j <- targets ::
      j.peer == k.peer && targets[j].active.Some? && targets[j].active.value in b.issued ==>
        b.issued[targets[j].active.value].call == b.calls
    ensures
      var c := Claim(k, next, targets[k].requested, targets[k].force);
      Sane(targets[k := targets[k].(active := Some(next))], next + 1,
        b.(issued := b.issued[next := Issue(c, Asked(b, k), b.calls)]))
  {
    var c := Claim(k, next, targets[k].requested, targets[k].force);
    var b' := b.(issued := b.issued[next := Issue(c, Asked(b, k), b.calls)]);
    var more := targets[k := targets[k].(active := Some(next))];
    assert next !in b.issued;
    assert Accounted(k, targets[k], b);
    forall j | j in more
      ensures Accounted(j, more[j], b')
    {
      assert Accounted(j, targets[j], b);
    }
    forall a | a in b'.issued && a !in b'.spent
      ensures Owns(more, b'.issued[a].claim.key, a)
    {
      if a != next {
        assert Owns(targets, b.issued[a].claim.key, a);
      }
    }
    TurnGrows(targets, next, b, k, b', more);
  }

  lemma TurnGrows(targets: Targets, next: Attempt, b: Books, k: Key, b': Books, more: Targets)
    requires OneTurn(targets, b) && k in targets && next !in b.issued
    requires forall j <- targets :: targets[j].active.Some? ==> targets[j].active.value in b.issued
    requires forall j <- targets ::
      j.peer == k.peer && targets[j].active.Some? && targets[j].active.value in b.issued ==>
        b.issued[targets[j].active.value].call == b.calls
    requires more == targets[k := targets[k].(active := Some(next))]
    requires exists c, n :: b' == b.(issued := b.issued[next := Issue(c, n, b.calls)])
    ensures OneTurn(more, b')
  {
  }

  // ---- backoff ----

  function Power(n: nat): nat {
    if n == 0 then 1 else 2 * Power(n - 1)
  }

  /** The pause after the n-th failure in a row: doubled each time up to a cap. */
  function Backoff(failures: nat, initial: nat, most: nat): nat {
    Min(initial * Power(Min(Max(failures - 1, 0), 20)), most)
  }

  lemma {:induction false} PowerGrows(m: nat, n: nat)
    requires m <= n
    ensures 1 <= Power(m) <= Power(n)
    decreases n
  {
    if m < n {
      PowerGrows(m, n - 1);
    } else if n > 0 {
      PowerGrows(n - 1, n - 1);
    }
  }

  /** The first pause is the initial one, each of the next twenty doubles it up to the cap, and then it stays. */
  lemma BackoffDoubles(n: nat, initial: nat, most: nat)
    requires n >= 1
    ensures Backoff(1, initial, most) == Min(initial, most)
    ensures Backoff(n + 1, initial, most) ==
      if n <= 20 then Min(2 * Backoff(n, initial, most), most) else Backoff(n, initial, most)
  {
    assert Power(0) == 1;
    if n <= 20 {
      assert Power(n) == 2 * Power(n - 1);
      assert initial * Power(n) == 2 * (initial * Power(n - 1));
    }
  }

  /** Backoff never shrinks with more failures and stays between its first pause and its cap. */
  lemma BackoffGrows(m: nat, n: nat, initial: nat, most: nat)
    requires 1 <= m <= n
    ensures Min(initial, most) <= Backoff(m, initial, most) <= Backoff(n, initial, most) <= most
  {
    hide Power;
    var (x, y) := (Power(Min(m - 1, 20)), Power(Min(n - 1, 20)));
    PowerGrows(Min(m - 1, 20), Min(n - 1, 20));
    Times(initial, x, y);
    Times(initial, 1, x);
  }

  // ---- the scheduler ----

  /**
   A target after a request: one revision more if there is one, due no later, and sooner only when
   nothing holds it back.
   */
  function Requested(was: Option<Scheduled>, due: Instant, force: bool): (t: Scheduled)
    ensures t.force == if force then Some(t.requested) else if was.Some? then was.value.force else None
    ensures was.None? ==> t.due == due && t.failures == 0 && t.requested == 1
    ensures was.Some? && was.value.active.None? && (was.value.failures == 0 || force) ==>
      t.due == Min(due, was.value.due)
    ensures t.active == if was.Some? then was.value.active else None
    ensures was.Some? ==> t.due <= was.value.due && t.failures == was.value.failures
    ensures was.Some? ==> t.requested == Min(was.value.requested + 1, U64_MAX)
    ensures was.Some? && (was.value.active.Some? || (was.value.failures > 0 && !force)) ==> t.due == was.value.due
    ensures t.active.None? && (was.Some? ==> was.value.failures == 0 || force) ==> t.due <= due
  {
    match was
    case None => Scheduled(due, 0, 1, None, if force then Some(1) else None)
    case Some(t) =>
      var sooner := t.active.None? && (t.failures == 0 || force) && due < t.due;
      var requested := Min(t.requested + 1, U64_MAX);
      Scheduled(if sooner then due else t.due, t.failures, requested, t.active,
        if force then Some(requested) else t.force)
  }

  /** A request leaves no trace in the revision and the force mark exactly when both are already at the cap. */
  lemma RequestShows(t: Scheduled, due: Instant, force: bool)
    requires t.requested <= U64_MAX
    ensures
      var next := Requested(Some(t), due, force);
      next.requested == t.requested && next.force == t.force <==>
        t.requested == U64_MAX && (force ==> t.force == Some(U64_MAX))
  {
  }

  /** So at the cap a clean completion cannot tell that work was requested after its claim. */
  lemma LostAtTheCap()
    ensures
      var claimed := Scheduled(0, 0, U64_MAX, Some(1), None);
      var claim := Claim(Key(0, 0), 1, claimed.requested, claimed.force);
      var next := Requested(Some(claimed), 5, false);
      next.requested == claim.covered && next.force == claim.force
  {
    RequestShows(Scheduled(0, 0, U64_MAX, Some(1), None), 5, false);
  }

  /** Attempts begun carry ids given out before, and none that ended is live or ended twice. */
  ghost predicate EndsOnce(live: set<(Key, Attempt)>, ends: multiset<(Key, Attempt)>, next: Attempt) {
    && (forall e <- live :: e.1 < next)
    && (forall e <- ends :: ends[e] == 1 && e !in live && e.1 < next)
  }

  lemma BeginsOne(live: set<(Key, Attempt)>, ends: multiset<(Key, Attempt)>, next: Attempt, keys: set<Key>)
    requires EndsOnce(live, ends, next)
    ensures EndsOnce(live + (set k <- keys :: (k, next)), ends, next + 1)
  {
  }

  lemma BeginsClaim(live: set<(Key, Attempt)>, ends: multiset<(Key, Attempt)>, next: Attempt, k: Key)
    requires EndsOnce(live, ends, next)
    ensures EndsOnce(live + {(k, next)}, ends, next + 1)
  {
  }

  class ResyncScheduler {
    var targets: Targets
    /** Begun attempts that no end, release or drop has reached. */
    var live: set<(Key, Attempt)>
    /** The next attempt id; ids are never reused. */
    var nextAttempt: Attempt
    ghost var books: Books
    /** The ends that found their attempt live, as often as they did. */
    ghost var ends: multiset<(Key, Attempt)>

    ghost predicate Valid()
      reads this
    {
      Sane(targets, nextAttempt, books) && EndsOnce(live, ends, nextAttempt)
    }

    /** A claim this scheduler issued. */
    ghost predicate Issued(c: Claim)
      reads this
    {
      c.attempt in books.issued && books.issued[c.attempt].claim == c
    }

    constructor ()
      ensures Valid() && targets == map[]
    {
      targets, live, nextAttempt := map[], {}, 1;
      books, ends := Books(map[], {}, map[], 0), multiset{};
    }

    /** A request: it raises the revision and leaves the owner of a claimed target alone. */
    method ScheduleAfter(k: Key, now: Instant, after: nat, force: bool)
      requires Valid()
      modifies `targets, `books
      ensures Valid() && books == old(books).(asked := old(books).asked[k := Asked(old(books), k) + 1])
      ensures
        var was := if k in old(targets) then Some(old(targets)[k]) else None;
        targets == old(targets)[k := Requested(was, now + after, force)]
    {
      hide Sane;
      var due := now + after;
      var t: Scheduled;
      if k in targets {
        t := targets[k];
        var requested := Min(t.requested + 1, U64_MAX);
        var earlier := t.active.None? && (t.failures == 0 || force) && due < t.due;
        t := t.(requested := requested, due := if earlier then due else t.due,
          force := if force then Some(requested) else t.force);
      } else {
        t := Scheduled(due, 0, 1, None, if force then Some(1) else None);
      }
      Requests(targets, nextAttempt, books, k, t);
      targets := targets[k := t];
      books := books.(asked := books.asked[k := Asked(books, k) + 1]);
    }

    /** Makes an idle target due now and adds a missing one; a claim or a backoff stays. */
    method Reconsider(k: Key, now: Instant)
      requires Valid()
      modifies `targets, `books
      ensures Valid() && books.issued == old(books).issued && books.spent == old(books).spent
      ensures k !in old(targets) ==> targets == old(targets)[k := Scheduled(now, 0, 1, None, None)]
      ensures k in old(targets) && (old(targets)[k].active.Some? || old(targets)[k].failures > 0) ==>
        targets == old(targets)
      ensures k in old(targets) && old(targets)[k].active.None? && old(targets)[k].failures == 0 ==>
        targets == old(targets)[k := old(targets)[k].(due := Min(now, old(targets)[k].due))]
    {
      hide Sane;
      if k !in targets {
        var t := Scheduled(now, 0, 1, None, None);
        Requests(targets, nextAttempt, books, k, t);
        targets := targets[k := t];
        books := books.(asked := books.asked[k := Asked(books, k) + 1]);
        return;
      }
      if targets[k].active.Some? {
        return;
      }
      if targets[k].failures == 0 && now < targets[k].due {
        var more := targets[k := targets[k].(due := now)];
        Rearms(targets, nextAttempt, books, more);
        targets := more;
      }
    }

    /**
     Takes an attempt off the live ones and tells whether it was there. `Valid` keeps the ends that were told so: no
     attempt is found live twice in a run, however late the second end comes.
     */
    method EndAttempt(k: Key, a: Attempt) returns (wasLive: bool)
      requires Valid()
      modifies `live, `ends
      ensures Valid() && live == old(live) - {(k, a)}
      ensures wasLive <==> (k, a) in old(live)
      ensures wasLive ==> (k, a) !in old(ends) && ends == old(ends) + multiset{(k, a)}
      ensures !wasLive ==> ends == old(ends)
    {
      hide Sane;
      wasLive := (k, a) in live;
      live := live - {(k, a)};
      ends := if wasLive then ends + multiset{(k, a)} else ends;
    }

    /**
     Deletes the target when nothing was requested since its claim; otherwise it is due again. Only a
     claim taken at the revision cap can overlook a request.
     */
    method CompleteClean(c: Claim, now: Instant)
      requires Valid() && Issued(c)
      modifies `targets, `books
      ensures Valid() && books == old(books).(spent := old(books).spent + {c.attempt})
      ensures c.attempt in old(books).spent ==> targets == old(targets)
      ensures c.attempt !in old(books).spent ==>
        var same := Asked(old(books), c.key) == old(books).issued[c.attempt].asked;
        var capped := c.covered == U64_MAX && old(targets)[c.key].force == c.force;
        targets == if same || capped then old(targets) - {c.key}
                   else old(targets)[c.key := old(targets)[c.key].(active := None, failures := 0, due := now)]
    {
      hide Sane;
      CurrentIsUnspent(targets, nextAttempt, books, c);
      if !Owns(targets, c.key, c.attempt) {
        books := books.(spent := books.spent + {c.attempt});
        assert books.spent == old(books).spent;
        return;
      }
      OwnerTracks(targets, nextAttempt, books, c);
      var t := targets[c.key];
      var less := if t.requested != c.covered || t.force != c.force
        then targets[c.key := t.(active := None, failures := 0, due := now)]
        else targets - {c.key};
      Ends(targets, nextAttempt, books, c, less);
      targets := less;
      books := books.(spent := books.spent + {c.attempt});
    }

    /** Keeps the target for a later look, at once when work was requested meanwhile. */
    method CompleteDirty(c: Claim, now: Instant, after: nat)
      requires Valid() && Issued(c)
      modifies `targets, `books
      ensures Valid() && books == old(books).(spent := old(books).spent + {c.attempt})
      ensures c.attempt in old(books).spent ==> targets == old(targets)
      ensures c.attempt !in old(books).spent ==>
        var (t, same) := (old(targets)[c.key], Asked(old(books), c.key) == old(books).issued[c.attempt].asked);
        targets == old(targets)[c.key := t.(active := None, failures := 0,
          due := if same || c.covered == U64_MAX then now + after else now,
          force := if t.force == c.force then None else t.force)]
    {
      hide Sane;
      CurrentIsUnspent(targets, nextAttempt, books, c);
      if !Owns(targets, c.key, c.attempt) {
        books := books.(spent := books.spent + {c.attempt});
        assert books.spent == old(books).spent;
        return;
      }
      OwnerTracks(targets, nextAttempt, books, c);
      var t := targets[c.key];
      var less := targets[c.key := t.(active := None, failures := 0,
        due := if t.requested == c.covered then now + after else now,
        force := if t.force == c.force then None else t.force)];
      Ends(targets, nextAttempt, books, c, less);
      targets := less;
      books := books.(spent := books.spent + {c.attempt});
    }

    /** Retries later, longer after each failure in a row, even if local evidence reads clean. */
    method CompleteFailed(c: Claim, now: Instant, initial: nat, most: nat)
      requires Valid() && Issued(c)
      modifies `targets, `books
      ensures Valid() && books == old(books).(spent := old(books).spent + {c.attempt})
      ensures c.attempt in old(books).spent ==> targets == old(targets)
      ensures c.attempt !in old(books).spent ==>
        var (t, failures) := (old(targets)[c.key], Min(old(targets)[c.key].failures + 1, U32_MAX));
        targets == old(targets)[c.key := t.(active := None, failures := failures,
          due := now + Backoff(failures, initial, most), force := Some(t.requested))]
    {
      hide Sane;
      CurrentIsUnspent(targets, nextAttempt, books, c);
      if !Owns(targets, c.key, c.attempt) {
        books := books.(spent := books.spent + {c.attempt});
        assert books.spent == old(books).spent;
        return;
      }
      OwnerTracks(targets, nextAttempt, books, c);
      var t := targets[c.key];
      var failures := Min(t.failures + 1, U32_MAX);
      var less := targets[c.key := t.(active := None, failures := failures,
        due := now + Backoff(failures, initial, most), force := Some(t.requested))];
      Ends(targets, nextAttempt, books, c, less);
      targets := less;
      books := books.(spent := books.spent + {c.attempt});
    }

    /** Frees the target of a claim and changes nothing but its due time. */
    method ReleaseClaim(c: Claim, now: Instant, after: nat)
      requires Valid() && Issued(c)
      modifies `targets, `live, `books, `ends
      ensures Valid() && books == old(books).(spent := old(books).spent + {c.attempt})
      ensures live == old(live) - {(c.key, c.attempt)} && old(ends) <= ends
      ensures c.attempt in old(books).spent ==> targets == old(targets)
      ensures c.attempt !in old(books).spent ==>
        targets == old(targets)[c.key := old(targets)[c.key].(active := None, due := now + after)]
    {
      hide Sane;
      var _ := EndAttempt(c.key, c.attempt);
      CurrentIsUnspent(targets, nextAttempt, books, c);
      if !Owns(targets, c.key, c.attempt) {
        books := books.(spent := books.spent + {c.attempt});
        assert books.spent == old(books).spent;
        return;
      }
      var less := targets[c.key := targets[c.key].(active := None, due := now + after)];
      Ends(targets, nextAttempt, books, c, less);
      targets := less;
      books := books.(spent := books.spent + {c.attempt});
    }

    /** Claims the targets of one peer's turn in order, as long as attempt ids last. */
    method ClaimTurn(keys: seq<Key>, peer: PeerId) returns (batch: seq<Claim>, exhausted: bool)
      requires Valid() && NoRepeats(keys) && ThisTurn(targets, books, peer)
      requires forall k <- keys :: k.peer == peer && k in targets && targets[k].active.None?
      modifies `targets, `live, `nextAttempt, `books
      ensures Valid() && Issues(old(books), books)
      ensures |batch| <= |keys| && (!exhausted ==> |batch| == |keys|) && (exhausted ==> nextAttempt == U64_MAX)
      ensures nextAttempt == old(nextAttempt) + |batch|
      ensures Took(old(targets), targets, keys[..|batch|]) && ThisTurn(targets, books, peer)
      ensures Batch(books, old(targets), keys, batch)
      ensures live == old(live) + LiveOf(batch)
    {
      hide Sane, ThisTurn, Took, NoRepeats, Batch, Issues, EndsOnce, LiveOf, ClaimsIn;
      batch, exhausted := [], false;
      LiveOfMore([], peer, batch);
      TookNone(targets);
      IssuesNone(books);
      BatchNone(books, targets, keys);
      assert keys[..0] == [];
      for n := 0 to |keys|
        invariant Valid() && |batch| == n && Issues(old(books), books) && nextAttempt == old(nextAttempt) + n
        invariant Took(old(targets), targets, keys[..n]) && ThisTurn(targets, books, peer)
        invariant Batch(books, old(targets), keys, batch)
        invariant live == old(live) + LiveOf(batch)
      {
        var k := keys[n];
        if nextAttempt >= U64_MAX {
          SaneBound(targets, nextAttempt, books);
          return batch, true;
        }
        TookLeaves(old(targets), targets, keys, n);
        NextIsNew(targets, nextAttempt, books);
        TurnClaims(targets, nextAttempt, books, k);
        var a := nextAttempt;
        var c := Claim(k, a, targets[k].requested, targets[k].force);
        TookOne(old(targets), targets, keys, n, a);
        BatchOne(old(books), books, old(targets), keys, batch, c);
        BeginsClaim(live, ends, a, k);
        LiveOfOne(batch, c);
        nextAttempt := nextAttempt + 1;
        targets := targets[k := targets[k].(active := Some(a))];
        live := live + {(k, a)};
        books := books.(issued := books.issued[a := Issue(c, Asked(books, k), books.calls)]);
        batch := batch + [c];
      }
      assert keys[..|keys|] == keys;
    }

    /**
     Gives turns to due targets, the soonest first: peers and targets of a peer are left out only when
     earlier ones take the room. A peer is claimed only while it has no turn.
     */
    method DueTargets(maxPeers: nat, maxTargets: nat, now: Instant)
      returns (out: seq<(PeerId, seq<Claim>)>, exhausted: bool,
               ghost ready: seq<Key>, ghost turns: Turns, ghost taken: seq<Key>)
      requires Valid()
      modifies `targets, `live, `nextAttempt, `books
      ensures Valid() && Issues(old(books).(calls := old(books).calls + 1), books)
      ensures SortedReady(old(targets), now, ready) && Fair(ready, |ready|, turns, maxPeers, maxTargets)
      ensures forall e <- out :: e.0 in turns && e.1 != [] && Batch(books, old(targets), turns[e.0], e.1)
      ensures Took(old(targets), targets, taken) && (forall k <- taken :: k.peer in turns && k in turns[k.peer])
      ensures !exhausted ==> forall p <- turns, k <- turns[p] :: k in taken
      ensures forall k <- taken :: Held(targets, out, k)
      ensures forall i, j :: 0 <= i < j < |out| ==> out[i].0 < out[j].0
      ensures TakesDue(old(targets), now, maxPeers, maxTargets, out)
      ensures !exhausted ==>
        forall k :: MayTake(old(targets), now, k) ==> LeavesOut(old(targets), maxPeers, maxTargets, out, k)
      ensures live == old(live) + LiveOfAll(out)
      ensures nextAttempt == old(nextAttempt) + ClaimsIn(out) && (exhausted ==> nextAttempt == U64_MAX)
    {
      hide Sane, ThisTurn, Took, NoRepeats, Batch, Issues, Fair, SortedReady, FreeTurn;
      hide LiveOf, LiveOfAll, EndsOnce, Dealt, ClaimsIn, TakesDue, LeavesOut, MayTake, Returns;
      var ordered := SortReady(targets, now);
      SortedIsUnique(targets, now, ordered);
      var given := GiveTurns(ordered, maxPeers, maxTargets);
      ready, turns, taken := ordered, given, [];
      assert ordered[..|ordered|] == ordered;
      TurnsAreFree(targets, books, now, ordered, given, maxPeers, maxTargets);
      CallsGrow(targets, nextAttempt, books);
      ghost var was := books.(calls := books.calls + 1);
      books := was;
      TookNone(targets);
      IssuesNone(books);
      out, exhausted := [], false;
      assert LiveOfAll(out) == {} && ClaimsIn(out) == 0 by { LiveOfNone(); }
      assert Dealt(out, taken, given.Keys) by { DealtNone(given.Keys); }
      ReturnsNone(given);
      var todo := given.Keys;
      while todo != {} && !exhausted
        invariant Valid() && Issues(was, books) && todo <= given.Keys
        invariant Took(old(targets), targets, taken)
        invariant forall k <- taken :: k.peer in given.Keys - todo && k in given[k.peer]
        invariant forall p <- todo :: FreeTurn(old(targets), targets, given[p], p) && NoRepeats(given[p])
        invariant forall e <- out :: e.0 in given && e.1 != [] && Batch(books, old(targets), given[e.0], e.1)
        invariant !exhausted ==> forall p <- given.Keys - todo, k <- given[p] :: k in taken
        invariant Dealt(out, taken, todo) && Returns(given, todo, !exhausted, out)
        invariant live == old(live) + LiveOfAll(out)
        invariant nextAttempt == old(nextAttempt) + ClaimsIn(out) && (exhausted ==> nextAttempt == U64_MAX)
        decreases todo
      {
        var p := Least(todo);
        var keys := given[p];
        ghost var (before, owed) := (targets, books);
        FreeIsThisTurn(old(targets), targets, books, keys, p);
        var batch;
        batch, exhausted := ClaimTurn(keys, p);
        IssuesMore(was, owed, books);
        TookMore(old(targets), before, targets, taken, keys[..|batch|]);
        FreeStays(old(targets), before, targets, given, keys[..|batch|], p, todo);
        BatchesStay(owed, books, old(targets), given, out);
        BatchSame(books, old(targets), before, keys, batch, p);
        DealtMore(books, old(targets), out, taken, todo, keys, p, batch);
        ReturnsNext(old(targets), ordered, given, todo, out, taken, maxPeers, maxTargets, p);
        ReturnsMore(books, old(targets), given, todo, out, p, batch, !exhausted);
        taken := taken + keys[..|batch|];
        LiveOfMore(out, p, batch);
        if batch != [] {
          out := out + [(p, batch)];
        }
        todo := todo - {p};
      }
      DealtIsHeld(targets, nextAttempt, books, old(targets), given, out, taken, todo);
      ReturnsDue(old(targets), now, ordered, given, todo, !exhausted, maxPeers, maxTargets, out);
      if !exhausted {
        forall k | MayTake(old(targets), now, k)
          ensures LeavesOut(old(targets), maxPeers, maxTargets, out, k)
        {
          ReturnsAll(old(targets), now, ordered, given, maxPeers, maxTargets, out, k);
        }
      }
    }

    /** Attempts of a sync nobody scheduled: one id no claim has, for all of `keys`. */
    method BeginAttempts(keys: set<Key>) returns (attempts: LiveAttempts?)
      requires Valid()
      modifies `live, `nextAttempt
      ensures Valid()
      ensures attempts == null <==> old(nextAttempt) == U64_MAX
      ensures attempts == null ==> live == old(live)
      ensures attempts != null ==>
        && fresh(attempts) && attempts.scheduler == this && attempts.attempt !in books.issued
        && live == old(live) + set k <- keys :: (k, attempts.attempt)
    {
      hide Sane;
      SaneBound(targets, nextAttempt, books);
      if nextAttempt >= U64_MAX {
        return null;
      }
      NextIsNew(targets, nextAttempt, books);
      BeginsOne(live, ends, nextAttempt, keys);
      LaterIdsAreSane(targets, nextAttempt, books);
      attempts := new LiveAttempts(this, nextAttempt);
      live := live + set k <- keys :: (k, nextAttempt);
      nextAttempt := nextAttempt + 1;
    }

    /** A peer that answers again loses its failures and waits no longer. */
    method PeerReachable(peer: PeerId, now: Instant)
      requires Valid()
      modifies `targets
      ensures Valid() && targets.Keys == old(targets).Keys
      ensures forall k <- targets :: (
        var t := old(targets)[k];
        targets[k] == if k.peer == peer && t.failures > 0
          then t.(failures := 0, due := if t.active.None? && t.due > now then now else t.due) else t)
    {
      hide Sane;
      var more := map k <- targets ::
        if k.peer == peer && targets[k].failures > 0
        then targets[k].(failures := 0,
          due := if targets[k].active.None? && targets[k].due > now then now else targets[k].due)
        else targets[k];
      Rearms(targets, nextAttempt, books, more);
      targets := more;
    }
  }

  /** The attempts of one sync under one id. */
  class LiveAttempts {
    const scheduler: ResyncScheduler
    const attempt: Attempt

    constructor (scheduler: ResyncScheduler, attempt: Attempt)
      ensures this.scheduler == scheduler && this.attempt == attempt
    {
      this.scheduler, this.attempt := scheduler, attempt;
    }

    method End(k: Key) returns (wasLive: bool)
      requires scheduler.Valid()
      modifies scheduler`live, scheduler`ends
      ensures scheduler.Valid() && (wasLive <==> (k, attempt) in old(scheduler.live))
      ensures wasLive ==> (k, attempt) !in old(scheduler.ends) && (k, attempt) in scheduler.ends
      ensures old(scheduler.ends) <= scheduler.ends
    {
      hide Sane;
      wasLive := scheduler.EndAttempt(k, attempt);
    }

    /** Afterwards no end finds one of these attempts live; those of others stay. */
    method Drop()
      requires scheduler.Valid()
      modifies scheduler`live
      ensures scheduler.Valid() && scheduler.live == set e <- old(scheduler.live) | e.1 != attempt
    {
      hide Sane;
      scheduler.live := set e <- scheduler.live | e.1 != attempt;
    }
  }

  lemma LaterIdsAreSane(targets: Targets, next: Attempt, b: Books)
    requires Sane(targets, next, b) && next < U64_MAX
    ensures Sane(targets, next + 1, b)
  {
  }

  ghost function LiveOf(batch: seq<Claim>): set<(Key, Attempt)> {
    set c <- batch :: (c.key, c.attempt)
  }

  ghost function LiveOfAll(out: seq<(PeerId, seq<Claim>)>): set<(Key, Attempt)> {
    set e <- out, c <- e.1 :: (c.key, c.attempt)
  }

  function ClaimsIn(out: seq<(PeerId, seq<Claim>)>): nat {
    if out == [] then 0 else ClaimsIn(out[..|out| - 1]) + |out[|out| - 1].1|
  }

  lemma LiveOfNone()
    ensures LiveOfAll([]) == {} && ClaimsIn([]) == 0
  {
  }

  lemma LiveOfOne(batch: seq<Claim>, c: Claim)
    ensures LiveOf(batch + [c]) == LiveOf(batch) + {(c.key, c.attempt)}
  {
  }

  lemma LiveOfMore(out: seq<(PeerId, seq<Claim>)>, p: PeerId, batch: seq<Claim>)
    ensures LiveOfAll(out + [(p, batch)]) == LiveOfAll(out) + LiveOf(batch)
    ensures ClaimsIn(out + [(p, batch)]) == ClaimsIn(out) + |batch|
    ensures batch == [] ==> LiveOf(batch) == {}
  {
    assert (out + [(p, batch)])[..|out|] == out;
  }

  /** Some claim returned is of this target. */
  ghost predicate Handed(out: seq<(PeerId, seq<Claim>)>, k: Key) {
    exists e, c :: e in out && c in e.1 && c.key == k
  }

  /** Some claim returned owns this target. */
  ghost predicate Held(targets: Targets, out: seq<(PeerId, seq<Claim>)>, k: Key) {
    exists e, c :: e in out && c in e.1 && c.key == k && Owns(targets, k, c.attempt)
  }

  /** The taken targets are among the claims returned, peers in order and before those still to do. */
  ghost predicate Dealt(out: seq<(PeerId, seq<Claim>)>, taken: seq<Key>, todo: set<PeerId>) {
    && (forall k <- taken :: Handed(out, k))
    && (forall i, j :: 0 <= i < j < |out| ==> out[i].0 < out[j].0)
    && (forall e <- out, p <- todo :: e.0 < p)
  }

  lemma ReturnsNext(targets: Targets, ready: seq<Key>, turns: Turns, todo: set<PeerId>, out: seq<(PeerId, seq<Claim>)>,
                    taken: seq<Key>, maxPeers: nat, maxTargets: nat, p: PeerId)
    requires Fair(ready, |ready|, turns, maxPeers, maxTargets) && Dealt(out, taken, todo) && p in todo && p in turns
    ensures turns[p] != [] && forall e <- out :: e.0 < p
  {
    hide Drawn, InTurn, Served, Waits, Handed;
  }

  lemma DealtNone(todo: set<PeerId>)
    ensures Dealt([], [], todo)
  {
  }

  lemma DealtMore(b: Books, targets: Targets, out: seq<(PeerId, seq<Claim>)>, taken: seq<Key>, todo: set<PeerId>,
                  keys: seq<Key>, p: PeerId, batch: seq<Claim>)
    requires Batch(b, targets, keys, batch) && Dealt(out, taken, todo) && p in todo && forall q <- todo :: p <= q
    ensures Dealt(if batch == [] then out else out + [(p, batch)], taken + keys[..|batch|], todo - {p})
  {
    var more := if batch == [] then out else out + [(p, batch)];
    forall k | k in taken + keys[..|batch|]
      ensures Handed(more, k)
    {
      if k in taken {
        var e, c :| e in out && c in e.1 && c.key == k;
        assert e in more;
      } else {
        var i :| 0 <= i < |batch| && keys[i] == k;
        assert (p, batch) in more && batch[i] in (p, batch).1;
      }
    }
  }

  lemma DealtIsHeld(targets: Targets, next: Attempt, b: Books, before: Targets, turns: Turns,
                    out: seq<(PeerId, seq<Claim>)>, taken: seq<Key>, todo: set<PeerId>)
    requires Sane(targets, next, b) && Dealt(out, taken, todo)
    requires forall e <- out :: e.0 in turns && Batch(b, before, turns[e.0], e.1)
    ensures forall k <- taken :: Held(targets, out, k)
    ensures forall i, j :: 0 <= i < j < |out| ==> out[i].0 < out[j].0
  {
    forall k | k in taken
      ensures Held(targets, out, k)
    {
      var e, c :| e in out && c in e.1 && c.key == k;
      assert Batch(b, before, turns[e.0], e.1);
      assert Owns(targets, b.issued[c.attempt].claim.key, c.attempt);
    }
  }

  /** Every claimed target of the peer was claimed in the present call. */
  ghost predicate ThisTurn(targets: Targets, b: Books, peer: PeerId) {
    forall j <- targets :: j.peer == peer && targets[j].active.Some? && targets[j].active.value in b.issued ==>
      b.issued[targets[j].active.value].call == b.calls
  }

  /** Only the targets of `keys` changed, from unclaimed to claimed. */
  ghost predicate Took(before: Targets, after: Targets, keys: seq<Key>) {
    && after.Keys == before.Keys
    && (forall k <- before :: k !in keys ==> after[k] == before[k])
    && (forall k <- before :: k in keys ==> after[k].active.Some? && after[k] == before[k].(active := after[k].active))
  }

  lemma TookNone(targets: Targets)
    ensures Took(targets, targets, [])
  {
  }

  lemma TookLeaves(before: Targets, after: Targets, keys: seq<Key>, n: nat)
    requires n < |keys| && Took(before, after, keys[..n]) && NoRepeats(keys) && keys[n] in before
    ensures keys[n] in after && after[keys[n]] == before[keys[n]]
  {
    assert keys[n] !in keys[..n];
  }

  lemma TookOne(before: Targets, after: Targets, keys: seq<Key>, n: nat, a: Attempt)
    requires n < |keys| && Took(before, after, keys[..n]) && NoRepeats(keys) && keys[n] in before
    ensures keys[n] in after && Took(before, after[keys[n] := after[keys[n]].(active := Some(a))], keys[..n + 1])
  {
    assert keys[n] !in keys[..n];
    assert keys[..n + 1] == keys[..n] + [keys[n]];
  }

  /** More claims were issued; nothing else of the run changed. */
  ghost predicate Issues(b: Books, b': Books) {
    && b' == b.(issued := b'.issued)
    && (forall a <- b.issued :: a in b'.issued && b'.issued[a] == b.issued[a])
  }

  lemma IssuesNone(b: Books)
    ensures Issues(b, b)
  {
  }

  lemma IssuesMore(a: Books, b: Books, c: Books)
    requires Issues(a, b) && Issues(b, c)
    ensures Issues(a, c)
  {
  }

  /** Claims of the first targets of a turn, issued in the present call at their present revision. */
  ghost predicate Batch(b: Books, targets: Targets, keys: seq<Key>, batch: seq<Claim>) {
    && |batch| <= |keys|
    && forall i :: 0 <= i < |batch| ==>
         && batch[i].attempt in b.issued && batch[i].attempt !in b.spent
         && b.issued[batch[i].attempt].claim == batch[i] && b.issued[batch[i].attempt].call == b.calls
         && keys[i] in targets
         && batch[i] == Claim(keys[i], batch[i].attempt, targets[keys[i]].requested, targets[keys[i]].force)
  }

  lemma BatchNone(b: Books, targets: Targets, keys: seq<Key>)
    ensures Batch(b, targets, keys, [])
  {
  }

  lemma BatchOne(was: Books, b: Books, targets: Targets, keys: seq<Key>, batch: seq<Claim>, c: Claim)
    requires Issues(was, b) && Batch(b, targets, keys, batch) && |batch| < |keys| && keys[|batch|] in targets
    requires c.attempt !in b.issued && c.attempt !in b.spent
    requires c == Claim(keys[|batch|], c.attempt, targets[keys[|batch|]].requested, targets[keys[|batch|]].force)
    ensures
      var b' := b.(issued := b.issued[c.attempt := Issue(c, Asked(b, c.key), b.calls)]);
      Batch(b', targets, keys, batch + [c]) && Issues(was, b')
  {
  }

  lemma BatchMore(b: Books, b': Books, targets: Targets, keys: seq<Key>, batch: seq<Claim>)
    requires Issues(b, b') && Batch(b, targets, keys, batch)
    ensures Batch(b', targets, keys, batch)
  {
  }

  lemma BatchesStay(b: Books, b': Books, targets: Targets, turns: Turns, out: seq<(PeerId, seq<Claim>)>)
    requires Issues(b, b') && forall e <- out :: e.0 in turns && e.1 != [] && Batch(b, targets, turns[e.0], e.1)
    ensures forall e <- out :: e.0 in turns && e.1 != [] && Batch(b', targets, turns[e.0], e.1)
  {
    hide Issues, Batch;
    forall e | e in out
      ensures Batch(b', targets, turns[e.0], e.1)
    {
      BatchMore(b, b', targets, turns[e.0], e.1);
    }
  }

  /** The targets of a turn are unclaimed and as they were, and so are all of their peer. */
  ghost predicate FreeTurn(before: Targets, targets: Targets, keys: seq<Key>, peer: PeerId) {
    && (forall k <- keys :: k.peer == peer && k in before && k in targets && targets[k] == before[k])
    && (forall k <- targets :: k.peer == peer ==> targets[k].active.None?)
  }

  lemma TurnsAreFree(targets: Targets, b: Books, now: Instant, ready: seq<Key>, turns: Turns, maxPeers: nat,
                     maxTargets: nat)
    requires SortedReady(targets, now, ready) && Fair(ready, |ready|, turns, maxPeers, maxTargets)
    ensures forall p <- turns :: FreeTurn(targets, targets, turns[p], p) && NoRepeats(turns[p])
  {
    hide NoRepeats, Ahead, Roomy, Waits, Served, Sooner;
    assert ready[..|ready|] == ready;
    forall p | p in turns
      ensures FreeTurn(targets, targets, turns[p], p) && NoRepeats(turns[p])
    {
      TurnIsFree(targets, now, ready, turns, maxPeers, maxTargets, p);
    }
  }

  lemma TurnIsFree(targets: Targets, now: Instant, ready: seq<Key>, turns: Turns, maxPeers: nat, maxTargets: nat,
                   p: PeerId)
    requires SortedReady(targets, now, ready) && Drawn(ready, turns) && Roomy(turns, maxPeers, maxTargets) && p in turns
    ensures FreeTurn(targets, targets, turns[p], p) && NoRepeats(turns[p])
  {
    hide NoRepeats, Sooner;
    assert Ready(targets, now, turns[p][0]) && turns[p][0].peer == p;
  }

  lemma FreeIsThisTurn(before: Targets, targets: Targets, b: Books, keys: seq<Key>, peer: PeerId)
    requires FreeTurn(before, targets, keys, peer)
    ensures ThisTurn(targets, b, peer) && forall k <- keys :: k.peer == peer && k in targets && targets[k].active.None?
  {
  }

  lemma FreeStays(was: Targets, before: Targets, targets: Targets, turns: Turns, keys: seq<Key>, peer: PeerId,
                  todo: set<PeerId>)
    requires Took(before, targets, keys) && (forall k <- keys :: k.peer == peer) && todo <= turns.Keys
    requires forall p <- todo :: FreeTurn(was, before, turns[p], p)
    ensures forall p <- todo - {peer} :: FreeTurn(was, targets, turns[p], p)
  {
  }

  lemma TookMore(a: Targets, b: Targets, c: Targets, xs: seq<Key>, ys: seq<Key>)
    requires Took(a, b, xs) && Took(b, c, ys)
    ensures Took(a, c, xs + ys)
  {
  }

  lemma BatchSame(b: Books, was: Targets, before: Targets, keys: seq<Key>, batch: seq<Claim>, peer: PeerId)
    requires Batch(b, before, keys, batch) && FreeTurn(was, before, keys, peer)
    ensures Batch(b, was, keys, batch)
  {
  }

  lemma CallsGrow(targets: Targets, next: Attempt, b: Books)
    requires Sane(targets, next, b)
    ensures Sane(targets, next, b.(calls := b.calls + 1))
  {
    var b' := b.(calls := b.calls + 1);
    forall k | k in targets
      ensures Accounted(k, targets[k], b')
    {
      assert Accounted(k, targets[k], b);
    }
  }

  lemma SaneBound(targets: Targets, next: Attempt, b: Books)
    requires Sane(targets, next, b)
    ensures 1 <= next <= U64_MAX
  {
  }

  lemma NextIsNew(targets: Targets, next: Attempt, b: Books)
    requires Sane(targets, next, b)
    ensures next !in b.issued && next !in b.spent
  {
  }

  lemma TurnClaims(targets: Targets, next: Attempt, b: Books, k: Key)
    requires Sane(targets, next, b) && k in targets && targets[k].active.None? && next < U64_MAX
    requires ThisTurn(targets, b, k.peer)
    ensures
      var c := Claim(k, next, targets[k].requested, targets[k].force);
      var b' := b.(issued := b.issued[next := Issue(c, Asked(b, k), b.calls)]);
      var more := targets[k := targets[k].(active := Some(next))];
      Sane(more, next + 1, b') && ThisTurn(more, b', k.peer)
  {
    hide Sane;
    NextIsNew(targets, next, b);
    Claims(targets, next, b, k);
  }

  lemma OwnerTracks(targets: Targets, next: Attempt, b: Books, c: Claim)
    requires Sane(targets, next, b) && Owns(targets, c.key, c.attempt) && c.attempt in b.issued
    requires b.issued[c.attempt].claim == c
    ensures c.key in b.asked && Tracks(targets[c.key], c.key, b.issued[c.attempt], b.asked[c.key])
  {
    assert Accounted(c.key, targets[c.key], b);
  }

  /** A due peer that got no turn: all the room went to peers with a target due no later. */
  lemma UnservedIsLater(targets: Targets, now: Instant, ready: seq<Key>, turns: Turns, maxPeers: nat, maxTargets: nat,
                        k: Key)
    requires SortedReady(targets, now, ready) && Fair(ready, |ready|, turns, maxPeers, maxTargets)
    requires Ready(targets, now, k) && k.peer !in turns
    ensures |turns| == maxPeers
    ensures forall q <- turns :: turns[q] != [] && turns[q][0] in targets && targets[turns[q][0]].due <= targets[k].due
  {
    hide Ready, Roomy, Drawn, Served, Ahead, Sooner;
    ReadyIsTarget(targets, now);
    assert ready[..|ready|] == ready;
    assert Waits(ready, turns, maxPeers, k);
    forall q | q in turns
      ensures turns[q][0] in targets && targets[turns[q][0]].due <= targets[k].due
    {
      AheadIsSooner(targets, now, ready, turns[q][0], k);
    }
  }

  lemma AheadIsSooner(targets: Targets, now: Instant, ready: seq<Key>, a: Key, b: Key)
    requires SortedReady(targets, now, ready) && Ahead(ready, a, b) && b in targets
    ensures a in targets && targets[a].due <= targets[b].due
  {
    hide Ready;
    var i, j :| 0 <= i < j < |ready| && ready[i] == a && ready[j] == b;
    assert Sooner(targets, ready[i], ready[j]);
  }

  // ---- leases and guards ----

  /** Attempts of claims. */
  ghost function AttemptsOf(claims: map<Key, Claim>): set<Attempt> {
    set k <- claims :: claims[k].attempt
  }

  /** Holds one claim until it is settled; a drop before that frees the target. */
  class ClaimGuard {
    const scheduler: ResyncScheduler
    const retryAfter: nat
    var claim: Option<Claim>

    constructor (scheduler: ResyncScheduler, retryAfter: nat, claim: Claim)
      ensures this.scheduler == scheduler && this.retryAfter == retryAfter && this.claim == Some(claim)
    {
      this.scheduler, this.retryAfter, this.claim := scheduler, retryAfter, Some(claim);
    }

    /** Gives the claim up for a result to be recorded; after this a drop does nothing. */
    method Settle() returns (c: Claim)
      requires claim.Some?
      modifies this
      ensures old(claim) == Some(c) && claim.None?
    {
      c := claim.value;
      claim := None;
    }

    method Drop(now: Instant)
      requires scheduler.Valid() && (claim.Some? ==> scheduler.Issued(claim.value))
      modifies this, scheduler
      ensures scheduler.Valid() && claim.None?
      ensures old(claim).None? ==>
        scheduler.targets == old(scheduler.targets) && scheduler.books == old(scheduler.books)
      ensures old(claim).Some? ==>
        && scheduler.books == old(scheduler.books).(spent := old(scheduler.books).spent + {old(claim).value.attempt})
        && !Owns(scheduler.targets, old(claim).value.key, old(claim).value.attempt)
    {
      hide Sane;
      if claim.Some? {
        var c := claim.value;
        scheduler.ReleaseClaim(c, now, retryAfter);
        CurrentIsUnspent(scheduler.targets, scheduler.nextAttempt, scheduler.books, c);
        claim := None;
      }
    }
  }

  /** Claims held together; a drop frees what is left of them. */
  class ResyncLease {
    const scheduler: ResyncScheduler
    const retryAfter: nat
    var claims: map<Key, Claim>

    ghost predicate Valid()
      reads this, scheduler
    {
      scheduler.Valid() && forall k <- claims :: claims[k].key == k && scheduler.Issued(claims[k])
    }

    constructor (scheduler: ResyncScheduler, retryAfter: nat, batch: seq<Claim>)
      requires scheduler.Valid() && forall c <- batch :: scheduler.Issued(c)
      ensures this.scheduler == scheduler && Valid()
      ensures forall c <- batch :: c.key in claims
      ensures forall k <- claims :: claims[k] in batch
    {
      var all: map<Key, Claim> := map[];
      for i := 0 to |batch|
        invariant forall k <- all :: all[k].key == k && all[k] in batch
        invariant forall j :: 0 <= j < i ==> batch[j].key in all
      {
        all := all[batch[i].key := batch[i]];
      }
      this.scheduler, this.retryAfter, claims := scheduler, retryAfter, all;
    }

    /** From here on the claim is in the guard and no longer in the lease. */
    method TakeClaim(k: Key) returns (guard: ClaimGuard?)
      requires Valid()
      modifies this
      ensures Valid() && claims == old(claims) - {k}
      ensures guard == null <==> k !in old(claims)
      ensures guard != null ==> fresh(guard) && guard.scheduler == scheduler && guard.claim == Some(old(claims)[k])
    {
      if k !in claims {
        assert claims - {k} == claims;
        return null;
      }
      guard := new ClaimGuard(scheduler, retryAfter, claims[k]);
      claims := claims - {k};
    }

    /** Hands back exactly the claims the lease still holds. */
    method Drop(now: Instant)
      requires Valid()
      modifies this, scheduler
      ensures Valid() && claims == map[]
      ensures scheduler.books == old(scheduler.books).(spent := old(scheduler.books).spent + AttemptsOf(old(claims)))
      ensures forall k <- old(claims) :: !Owns(scheduler.targets, k, old(claims)[k].attempt)
    {
      hide Sane;
      ghost var all := claims;
      while claims != map[]
        invariant Valid() && claims.Keys <= all.Keys && forall k <- claims :: claims[k] == all[k]
        invariant forall k <- all :: k !in claims ==> all[k].attempt in scheduler.books.spent
        invariant scheduler.books == old(scheduler.books).(spent := scheduler.books.spent)
        invariant old(scheduler.books).spent <= scheduler.books.spent <= old(scheduler.books).spent + AttemptsOf(all)
        invariant forall k <- all :: scheduler.Issued(all[k]) && all[k].key == k
        decreases claims.Keys
      {
        var k :| k in claims;
        scheduler.ReleaseClaim(claims[k], now, retryAfter);
        claims := claims - {k};
      }
      forall k | k in all
        ensures !Owns(scheduler.targets, k, all[k].attempt)
      {
        CurrentIsUnspent(scheduler.targets, scheduler.nextAttempt, scheduler.books, all[k]);
      }
      assert scheduler.books.spent == old(scheduler.books).spent + AttemptsOf(all);
    }
  }
}
