/**
 The bounded scan for holes: what a topic lists or depends on and does not have. A step reads
 at most a budget of ids and edges and leaves a cursor where the next resumes.
 */
module IntegrityScan {
  import opened Prelude

  datatype Position = Position(gen: nat, deps: set<OpId>)

  /** One read snapshot of a topic: the listed ids, the stored positions and the stored records. */
  datatype Snap = Snap(ids: set<OpId>, meta: map<OpId, Position>, records: set<OpId>)

  predicate Resolvable(s: Snap, x: OpId) {
    x in s.records && x in s.meta
  }

  function Deps(s: Snap, x: OpId): set<OpId> {
    if x in s.meta then s.meta[x].deps else {}
  }

  /** Ids found unresolved, and the generation of those that are listed with one. */
  type Holes = map<OpId, Option<nat>>

  ghost predicate IsHole(s: Snap, h: OpId) {
    !Resolvable(s, h) && (h in s.ids || exists y :: y in s.ids && h in Deps(s, y))
  }

  /** Every hole of the snapshot, as one unbounded scan finds it. */
  ghost predicate OneShot(s: Snap, holes: Holes) {
    && (forall h :: h in holes <==> IsHole(s, h))
    && (forall h <- holes :: holes[h] == if h in s.ids && h in s.meta then Some(s.meta[h].gen) else None)
  }

  /** An id that neither is nor causes a hole. */
  ghost predicate Clean(s: Snap, y: OpId) {
    Resolvable(s, y) && forall d <- Deps(s, y) :: Resolvable(s, d)
  }

  /**
   Admission and repair only add records. What is listed anew is resolvable with its
   dependencies, and a position is stored only when its dependencies are.
   */
  ghost predicate Grows(s: Snap, t: Snap) {
    && s.ids <= t.ids && s.records <= t.records
    && (forall x <- s.meta :: x in t.meta && t.meta[x] == s.meta[x])
    && (forall y <- t.ids - s.ids :: Clean(t, y))
    && (forall x <- t.meta :: x !in s.meta ==> forall d <- Deps(t, x) :: Resolvable(t, d))
  }

  lemma GrowsKeeps(s: Snap, t: Snap, y: OpId)
    requires Grows(s, t)
    ensures Resolvable(s, y) ==> Resolvable(t, y)
    ensures Clean(s, y) ==> Clean(t, y)
    ensures y in s.meta ==> Deps(t, y) == Deps(s, y)
  {
    if Clean(s, y) {
      forall d | d in Deps(t, y)
        ensures Resolvable(t, d)
      {
        assert Resolvable(s, d);
      }
    }
  }

  lemma GrowsTransitive(s: Snap, t: Snap, u: Snap)
    requires Grows(s, t) && Grows(t, u)
    ensures Grows(s, u)
  {
    hide Resolvable, Deps;
    forall y | y in u.ids - s.ids
      ensures Clean(u, y)
    {
      if y in t.ids {
        assert y in t.ids - s.ids;
        GrowsKeeps(t, u, y);
      }
    }
    forall x, d | x in u.meta && x !in s.meta && d in Deps(u, x)
      ensures Resolvable(u, d)
    {
      if x in t.meta {
        GrowsKeeps(t, u, x);
        GrowsKeeps(t, u, d);
      }
    }
  }

  /** An unresolved id or dependency of a listed id was one before. */
  lemma GrowsNoCause(s: Snap, t: Snap, y: OpId, d: OpId)
    requires Grows(s, t) && y in t.ids && d in Deps(t, y) && !Resolvable(t, d)
    ensures y in s.ids && d in Deps(s, y) && !Resolvable(s, d)
  {
    hide Resolvable;
    GrowsKeeps(s, t, d);
    GrowsKeeps(s, t, y);
    assert y in s.ids by { assert !Clean(t, y); }
  }

  /** Neither admission nor repair creates a hole. */
  lemma GrowsNoHole(s: Snap, t: Snap, h: OpId)
    requires Grows(s, t) && IsHole(t, h)
    ensures IsHole(s, h)
  {
    hide Resolvable, Deps;
    GrowsKeeps(s, t, h);
    if h in t.ids {
      assert h in s.ids by { assert !Clean(t, h); }
    } else {
      var y :| y in t.ids && h in Deps(t, y);
      GrowsNoCause(s, t, y, h);
    }
  }

  // ---- cursors ----

  datatype DepCursor = DepCursor(offset: nat, after: Option<OpId>)

  /** Everything up to `after` is passed; `open` is the id passed in part, with how much of it. */
  datatype Cursor = Cursor(after: Option<OpId>, open: Option<(OpId, DepCursor)>)

  const START: Cursor := Cursor(None, None)
  const FIRST: DepCursor := DepCursor(0, None)

  predicate Past(after: Option<OpId>, x: OpId) {
    after.Some? ==> after.value < x
  }

  function After(ids: set<OpId>, after: Option<OpId>): set<OpId> {
    set x <- ids | Past(after, x)
  }

  /** `y` comes no later than where the cursor stands. */
  ghost predicate PassedId(c: Cursor, y: OpId) {
    !Past(c.after, y) || (c.open.Some? && y <= c.open.value.0)
  }

  ghost predicate PassedEdge(c: Cursor, y: OpId, d: OpId) {
    || !Past(c.after, y)
    || (c.open.Some? && (y < c.open.value.0 || (y == c.open.value.0 && !Past(c.open.value.1.after, d))))
  }

  /** The dependency cursor stands on a dependency of `id` and counts those read. */
  ghost predicate FromFits(s: Snap, id: OpId, from: DepCursor) {
    && id in s.meta
    && from.offset + |After(Deps(s, id), from.after)| == |Deps(s, id)|
    && (from.offset == 0 <==> from.after.None?)
    && (from.after.Some? ==> from.after.value in Deps(s, id))
  }

  /** An open id's position is stored and its dependency cursor fits it. */
  ghost predicate CursorFits(s: Snap, c: Cursor) {
    c.open.Some? ==> Past(c.after, c.open.value.0) && FromFits(s, c.open.value.0, c.open.value.1)
  }

  /** As much of that as an older snapshot shows: the position may not be stored there yet. */
  ghost predicate MayFit(s: Snap, c: Cursor) {
    c.open.Some? ==>
      && Past(c.after, c.open.value.0)
      && (c.open.value.0 in s.meta ==> FromFits(s, c.open.value.0, c.open.value.1))
  }

  /** What the scan passed between two cursors and found unresolved is among `holes`. */
  ghost predicate Between(s: Snap, from: Cursor, to: Cursor, holes: Holes) {
    && (forall y <- s.ids :: PassedId(to, y) && !PassedId(from, y) && !Resolvable(s, y) ==> y in holes)
    && (forall y <- s.ids, d <- Deps(s, y) ::
          PassedEdge(to, y, d) && !PassedEdge(from, y, d) && !Resolvable(s, d) ==> d in holes)
  }

  /** Everything unresolved that a cursor passed is among `holes`. */
  ghost predicate Checked(s: Snap, c: Cursor, holes: Holes) {
    && (forall y <- s.ids :: PassedId(c, y) && !Resolvable(s, y) ==> y in holes)
    && (forall y <- s.ids, d <- Deps(s, y) :: PassedEdge(c, y, d) && !Resolvable(s, d) ==> d in holes)
  }

  /** Found holes are holes, and a known generation is the stored one. */
  ghost predicate Sound(s: Snap, holes: Holes) {
    forall h <- holes ::
      && IsHole(s, h)
      && (holes[h].Some? ==> h in s.ids && h in s.meta && holes[h].value == s.meta[h].gen)
  }

  /** A listed id whose position is stored without its record is known with its generation. */
  ghost predicate Dated(s: Snap, from: Cursor, to: Cursor, holes: Holes) {
    forall y <- s.ids :: PassedId(to, y) && !PassedId(from, y) && !Resolvable(s, y) && y in s.meta ==>
      y in holes && holes[y] == Some(s.meta[y].gen)
  }

  // ---- joining and growing ----

  lemma JoinChecked(s: Snap, now: Snap, from: Cursor, to: Cursor, known: Holes, found: Holes, both: Holes)
    requires Grows(s, now) && Checked(now, from, known) && Between(s, from, to, found)
    requires both.Keys == known.Keys + found.Keys
    ensures Checked(now, to, both)
  {
    hide Resolvable, Deps, PassedId, PassedEdge;
    forall y | y in now.ids && PassedId(to, y) && !Resolvable(now, y)
      ensures y in both
    {
      if !PassedId(from, y) {
        assert y in s.ids by { assert !Clean(now, y); }
        GrowsKeeps(s, now, y);
      }
    }
    forall y, d | y in now.ids && d in Deps(now, y) && PassedEdge(to, y, d) && !Resolvable(now, d)
      ensures d in both
    {
      GrowsNoCause(s, now, y, d);
    }
  }

  lemma JoinBetween(s: Snap, a: Cursor, b: Cursor, c: Cursor, first: Holes, second: Holes, both: Holes)
    requires Between(s, a, b, first) && Between(s, b, c, second) && both.Keys >= first.Keys + second.Keys
    ensures Between(s, a, c, both)
  {
    hide Resolvable, Deps, PassedId, PassedEdge;
  }

  lemma GrowsFits(s: Snap, t: Snap, c: Cursor)
    requires Grows(s, t)
    ensures CursorFits(s, c) ==> CursorFits(t, c)
    ensures CursorFits(t, c) ==> MayFit(s, c)
  {
    hide Resolvable, Clean;
    if c.open.Some? {
      GrowsKeeps(s, t, c.open.value.0);
    }
  }

  /** What was checked stays checked as the topic grows. */
  lemma GrowsChecked(s: Snap, t: Snap, c: Cursor, holes: Holes)
    requires Grows(s, t) && Checked(s, c, holes)
    ensures Checked(t, c, holes)
  {
    hide Resolvable, Deps, PassedId, PassedEdge;
    forall y | y in t.ids && PassedId(c, y) && !Resolvable(t, y)
      ensures y in holes
    {
      assert y in s.ids by { assert !Clean(t, y); }
      GrowsKeeps(s, t, y);
    }
    forall y, d | y in t.ids && d in Deps(t, y) && PassedEdge(c, y, d) && !Resolvable(t, d)
      ensures d in holes
    {
      GrowsNoCause(s, t, y, d);
    }
  }

  // ---- ordered listings ----

  /** `r` is the least ids past `after`, in order, as many as `limit` allows. */
  ghost predicate Listing(ids: set<OpId>, after: Option<OpId>, limit: nat, r: seq<OpId>) {
    && |r| <= limit
    && (forall i :: 0 <= i < |r| ==> r[i] in ids && Past(after, r[i]))
    && (forall i, j :: 0 <= i < j < |r| ==> r[i] < r[j])
    && (forall y <- ids :: Past(after, y) && y !in r ==> |r| == limit && forall i :: 0 <= i < |r| ==> r[i] < y)
  }

  method List(ids: set<OpId>, after: Option<OpId>, limit: nat) returns (r: seq<OpId>)
    ensures Listing(ids, after, limit, r)
  {
    r := [];
    var left := After(ids, after);
    while left != {} && |r| < limit
      invariant left <= ids && |r| <= limit
      invariant forall y <- left :: Past(after, y)
      invariant forall i :: 0 <= i < |r| ==> r[i] in ids && Past(after, r[i])
      invariant forall i, j :: 0 <= i < j < |r| ==> r[i] < r[j]
      invariant forall y <- left, i :: 0 <= i < |r| ==> r[i] < y
      invariant forall y <- ids :: Past(after, y) ==> y in left || y in r
      decreases left
    {
      var x := Least(left);
      r := r + [x];
      left := left - {x};
    }
  }

  lemma ListingInit(ids: set<OpId>, after: Option<OpId>, limit: nat, r: seq<OpId>)
    requires Listing(ids, after, limit, r) && r != []
    ensures Listing(ids, after, |r| - 1, r[..|r| - 1])
  {
    assert r == r[..|r| - 1] + [r[|r| - 1]];
  }

  function LastOf(after: Option<OpId>, r: seq<OpId>): Option<OpId> {
    if r == [] then after else Some(r[|r| - 1])
  }

  /** The last id of a listing is the next one past the others. */
  lemma LastIsNext(ids: set<OpId>, after: Option<OpId>, limit: nat, r: seq<OpId>, y: OpId)
    requires Listing(ids, after, limit, r) && r != [] && y in ids && Past(LastOf(after, r[..|r| - 1]), y)
    ensures y == r[|r| - 1] || r[|r| - 1] < y
  {
    var (init, last) := (r[..|r| - 1], r[|r| - 1]);
    if init != [] {
      assert Past(after, r[|init| - 1]);
    }
    assert forall i :: 0 <= i < |init| ==> r[i] <= r[|init| - 1];
    if y in r {
      var i :| 0 <= i < |r| && r[i] == y;
    }
  }

  /** What lies past a listing without its last id is that id and what lies past it. */
  lemma LastListed(ids: set<OpId>, after: Option<OpId>, limit: nat, r: seq<OpId>)
    requires Listing(ids, after, limit, r) && r != []
    ensures Past(LastOf(after, r[..|r| - 1]), r[|r| - 1]) && r[|r| - 1] in ids
    ensures After(ids, LastOf(after, r[..|r| - 1])) == After(ids, Some(r[|r| - 1])) + {r[|r| - 1]}
  {
    var (last, before) := (r[|r| - 1], LastOf(after, r[..|r| - 1]));
    assert Past(before, last) && last in ids;
    LastRest(ids, after, limit, r, before, last);
  }

  lemma LastRest(ids: set<OpId>, after: Option<OpId>, limit: nat, r: seq<OpId>, before: Option<OpId>, last: OpId)
    requires Listing(ids, after, limit, r) && r != [] && last == r[|r| - 1] && before == LastOf(after, r[..|r| - 1])
    requires Past(before, last) && last in ids
    ensures After(ids, before) == After(ids, Some(last)) + {last}
  {
    hide Listing, LastOf;
    forall y | y in ids && Past(before, y)
      ensures y == last || last < y
    {
      LastIsNext(ids, after, limit, r, y);
    }
  }

  /** A listing takes its ids off what lies past the cursor. */
  lemma {:induction false} ListingLeaves(ids: set<OpId>, after: Option<OpId>, limit: nat, r: seq<OpId>)
    requires Listing(ids, after, limit, r)
    ensures |After(ids, after)| == |r| + |After(ids, LastOf(after, r))|
    decreases |r|
  {
    hide Listing, After;
    if r != [] {
      ListingInit(ids, after, limit, r);
      ListingLeaves(ids, after, |r| - 1, r[..|r| - 1]);
      LastListed(ids, after, limit, r);
      assert r[|r| - 1] !in After(ids, Some(r[|r| - 1])) by { NotPast(ids, r[|r| - 1]); }
    }
  }

  lemma NotPast(ids: set<OpId>, x: OpId)
    ensures x !in After(ids, Some(x))
  {
  }

  lemma {:induction false} ListingPrefix(ids: set<OpId>, after: Option<OpId>, limit: nat, r: seq<OpId>, n: nat)
    requires Listing(ids, after, limit, r) && n <= |r|
    ensures n < |r| ==> Listing(ids, after, n, r[..n])
    ensures n == |r| ==> Listing(ids, after, limit, r[..n])
    decreases |r|
  {
    hide Listing;
    if n < |r| {
      ListingInit(ids, after, limit, r);
      ListingPrefix(ids, after, |r| - 1, r[..|r| - 1], n);
      assert r[..|r| - 1][..n] == r[..n];
    } else {
      assert r[..n] == r;
    }
  }

  // ---- the cost of a scan ----

  /** Ids and edges to read for a set of listed ids. */
  ghost function Cost(s: Snap, ids: set<OpId>): nat {
    if ids == {} then 0 else
      var x :| x in ids;
      1 + |Deps(s, x)| + Cost(s, ids - {x})
  }

  lemma {:induction false} CostRemove(s: Snap, ids: set<OpId>, x: OpId)
    requires x in ids
    ensures Cost(s, ids) == 1 + |Deps(s, x)| + Cost(s, ids - {x})
    decreases ids
  {
    hide Deps;
    var y :| y in ids && Cost(s, ids) == 1 + |Deps(s, y)| + Cost(s, ids - {y});
    if x != y {
      CostRemove(s, ids - {y}, x);
      CostRemove(s, ids - {x}, y);
      assert ids - {x} - {y} == ids - {y} - {x};
    }
  }

  /** What is left to read from a cursor. */
  ghost function Work(s: Snap, c: Cursor): nat {
    if c.open.Some? then
      |After(Deps(s, c.open.value.0), c.open.value.1.after)| + Cost(s, After(s.ids, Some(c.open.value.0)))
    else
      Cost(s, After(s.ids, c.after))
  }

  // ---- the edges of one id ----

  datatype Refusal = BadCursor

  /** The stored dependencies of `id` past a cursor, which must match them. */
  method DependencyIds(s: Snap, id: OpId, from: DepCursor, limit: nat) returns (r: Result<Option<seq<OpId>>, Refusal>)
    ensures limit > 0 && id !in s.meta ==> r == Ok(None)
    ensures limit > 0 && FromFits(s, id, from) ==>
      r.Ok? && r.value.Some? && Listing(Deps(s, id), from.after, limit, r.value.value)
    ensures r.Ok? && r.value.None? ==> id !in s.meta
  {
    hide Listing;
    if limit == 0 {
      return Err(BadCursor);
    }
    if id !in s.meta {
      return Ok(None);
    }
    var deps := s.meta[id].deps;
    if from.offset > |deps| || (from.offset == 0) != from.after.None?
      || (from.after.Some? && from.after.value !in deps) {
      return Err(BadCursor);
    }
    var page := List(deps, from.after, limit);
    r := Ok(Some(page));
  }

  /** `more` adds to `holes` unresolved ids of `deps`; past `from`, all of them up to `to`, or all when `whole`. */
  ghost predicate Noted(s: Snap, deps: set<OpId>, from: Option<OpId>, to: Option<OpId>, whole: bool, holes: Holes,
                        more: Holes) {
    && (forall h <- holes :: h in more && more[h] == holes[h])
    && (forall h <- more :: h !in holes ==> more[h] == None && h in deps && !Resolvable(s, h))
    && (forall d <- deps :: Past(from, d) && (whole || !Past(to, d)) && !Resolvable(s, d) ==> d in more)
  }

  method NoteUnresolved(s: Snap, deps: seq<OpId>, holes: Holes) returns (more: Holes)
    ensures forall h <- holes :: h in more && more[h] == holes[h]
    ensures forall h <- more :: h !in holes ==> more[h] == None && h in deps && !Resolvable(s, h)
    ensures forall d <- deps :: !Resolvable(s, d) ==> d in more
  {
    hide Resolvable;
    more := holes;
    for i := 0 to |deps|
      invariant forall h <- holes :: h in more && more[h] == holes[h]
      invariant forall h <- more :: h !in holes ==> more[h] == None && h in deps && !Resolvable(s, h)
      invariant forall j :: 0 <= j < i && !Resolvable(s, deps[j]) ==> deps[j] in more
    {
      if !Resolvable(s, deps[i]) && deps[i] !in more {
        more := more[deps[i] := None];
      }
    }
  }

  lemma NotedPage(s: Snap, deps: set<OpId>, from: Option<OpId>, at: Option<OpId>, limit: nat, page: seq<OpId>,
                  holes: Holes, mid: Holes, more: Holes)
    requires Noted(s, deps, from, at, false, holes, mid) && Listing(deps, at, limit, page)
    requires forall h <- mid :: h in more && more[h] == mid[h]
    requires forall h <- more :: h !in mid ==> more[h] == None && h in page && !Resolvable(s, h)
    requires forall d <- page :: !Resolvable(s, d) ==> d in more
    ensures Noted(s, deps, from, LastOf(at, page), |page| < limit, holes, more)
  {
    hide Resolvable;
    forall d | d in deps && Past(from, d) && (|page| < limit || !Past(LastOf(at, page), d)) && !Resolvable(s, d)
      ensures d in more
    {
      assert page == [] || page[|page| - 1] in page;
    }
  }

  lemma FitsPage(s: Snap, id: OpId, from: DepCursor, limit: nat, page: seq<OpId>)
    requires FromFits(s, id, from) && Listing(Deps(s, id), from.after, limit, page) && page != []
    ensures FromFits(s, id, DepCursor(from.offset + |page|, Some(page[|page| - 1])))
    ensures |After(Deps(s, id), from.after)| == |page| + |After(Deps(s, id), Some(page[|page| - 1]))|
  {
    ListingLeaves(Deps(s, id), from.after, limit, page);
  }

  lemma EndPage(s: Snap, id: OpId, from: DepCursor, limit: nat, page: seq<OpId>)
    requires Listing(Deps(s, id), from.after, limit, page) && |page| < limit
    ensures |After(Deps(s, id), from.after)| == |page|
  {
    ListingLeaves(Deps(s, id), from.after, limit, page);
    assert After(Deps(s, id), LastOf(from.after, page)) == {} by {
      forall d | d in Deps(s, id) && Past(LastOf(from.after, page), d)
        ensures d in page
      {
        assert page != [] ==> Past(from.after, page[|page| - 1]);
      }
      forall d | d in page
        ensures !Past(LastOf(from.after, page), d)
      {
        var i :| 0 <= i < |page| && page[i] == d;
      }
    }
  }

  /**
   Notes the unresolved dependencies of `id` past a cursor, one unit of budget for each. A false
   result means that the budget is spent and `to` is where the next step resumes. An id whose
   position an older snapshot lacks is noted as a hole and left.
   */
  method ReadEdges(s: Snap, id: OpId, from: DepCursor, left: nat, holes: Holes)
    returns (r: Result<bool, Refusal>, to: DepCursor, left': nat, holes': Holes)
    requires if id in s.meta then FromFits(s, id, from) else left > 0
    ensures r.Ok? && (!r.value ==> FromFits(s, id, to))
    ensures r.value ==> left == left' + |After(Deps(s, id), from.after)|
    ensures !r.value ==> left' == 0 && left + |After(Deps(s, id), to.after)| == |After(Deps(s, id), from.after)|
    ensures id in s.meta ==> Noted(s, Deps(s, id), from.after, to.after, r.value, holes, holes')
    ensures id !in s.meta ==> r.value && holes' == if id in holes then holes else holes[id := None]
  {
    hide FromFits, Noted, Listing;
    to, left', holes' := from, left, holes;
    NotedNone(s, Deps(s, id), from.after, holes);
    while true
      invariant id in s.meta ==>
        FromFits(s, id, to) && Noted(s, Deps(s, id), from.after, to.after, false, holes, holes')
      invariant id !in s.meta ==> to == from && left' == left && holes' == holes
      invariant left + |After(Deps(s, id), to.after)| == left' + |After(Deps(s, id), from.after)|
      decreases left'
    {
      if left' == 0 {
        return Ok(false), to, left', holes';
      }
      var asked := left';
      var page := DependencyIds(s, id, to, asked);
      if page.Err? {
        return Err(BadCursor), to, left', holes';
      }
      if page.value.None? {
        return Ok(true), to, left', if id in holes' then holes' else holes'[id := None];
      }
      var deps := page.value.value;
      ListingSize(Deps(s, id), to.after, asked, deps);
      var more := NoteUnresolved(s, deps, holes');
      NotedPage(s, Deps(s, id), from.after, to.after, asked, deps, holes, holes', more);
      holes', left' := more, left' - |deps|;
      if |deps| < asked {
        EndPage(s, id, to, asked, deps);
        NotedWhole(s, Deps(s, id), from.after, LastOf(to.after, deps), to.after, holes, holes');
        return Ok(true), to, left', holes';
      }
      FitsPage(s, id, to, asked, deps);
      to := DepCursor(to.offset + |deps|, Some(deps[|deps| - 1]));
    }
  }

  lemma ListingSize(ids: set<OpId>, after: Option<OpId>, limit: nat, r: seq<OpId>)
    requires Listing(ids, after, limit, r)
    ensures |r| <= limit
  {
  }

  lemma NotedNone(s: Snap, deps: set<OpId>, from: Option<OpId>, holes: Holes)
    ensures Noted(s, deps, from, from, false, holes, holes)
  {
  }

  lemma NotedWhole(s: Snap, deps: set<OpId>, from: Option<OpId>, to: Option<OpId>, any: Option<OpId>, holes: Holes,
                   more: Holes)
    requires Noted(s, deps, from, to, true, holes, more)
    ensures Noted(s, deps, from, any, true, holes, more)
  {
  }

  // ---- one step ----

  /** The open id of a cursor is listed with its position. */
  ghost predicate Rooted(s: Snap, c: Cursor) {
    c.open.Some? ==> c.open.value.0 in s.ids && c.open.value.0 in s.meta
  }

  /** A cursor opens what it started on or an id listed with its position. */
  ghost predicate Reopens(s: Snap, start: Cursor, c: Cursor) {
    c.open.Some? ==>
      || (start.open.Some? && start.open.value.0 == c.open.value.0)
      || (c.open.value.0 in s.ids && c.open.value.0 in s.meta)
  }

  /** The topic lists the id or names it as a dependency of a listed one. */
  ghost predicate Named(s: Snap, h: OpId) {
    h in s.ids || exists y :: y in s.ids && h in Deps(s, y)
  }

  /** What is found is named by the topic or belongs to the id the cursor stood in. */
  ghost predicate FoundAt(s: Snap, start: Cursor, holes: Holes) {
    forall h <- holes ::
      Named(s, h) || (start.open.Some? && (h == start.open.value.0 || h in Deps(s, start.open.value.0)))
  }

  /** Where a step stands: what it passed is found, and what it read is off the work left. */
  ghost predicate Stood(s: Snap, start: Cursor, c: Cursor, holes: Holes, left: nat, budget: nat) {
    && CursorFits(s, c)
    && Between(s, start, c, holes)
    && Dated(s, start, c, holes)
    && (Rooted(s, start) ==> Sound(s, holes) && Rooted(s, c))
    && FoundAt(s, start, holes) && Reopens(s, start, c)
    && Work(s, start) + left == Work(s, c) + budget
  }

  lemma StoodStart(s: Snap, start: Cursor, budget: nat)
    requires CursorFits(s, start)
    ensures Stood(s, start, start, map[], budget, budget)
  {
    hide Resolvable, Deps, PassedId, PassedEdge;
  }

  lemma OpenWhole(s: Snap, start: Cursor, holes: Holes, left: nat, budget: nat)
    requires start.open.Some?
    requires
      var (id, from) := start.open.value;
      && budget == left + |After(Deps(s, id), from.after)|
      && (if id in s.meta then Noted(s, Deps(s, id), from.after, from.after, true, map[], holes)
          else holes == map[id := None])
      && Past(start.after, id)
    ensures Stood(s, start, Cursor(Some(start.open.value.0), None), holes, left, budget)
  {
    hide After, FromFits, Cost;
  }

  lemma OpenPart(s: Snap, start: Cursor, to: DepCursor, holes: Holes, budget: nat)
    requires start.open.Some?
    requires
      var (id, from) := start.open.value;
      && Past(start.after, id)
      && FromFits(s, id, to) && Noted(s, Deps(s, id), from.after, to.after, false, map[], holes)
      && budget + |After(Deps(s, id), to.after)| == |After(Deps(s, id), from.after)|
    ensures Stood(s, start, Cursor(start.after, Some((start.open.value.0, to))), holes, 0, budget)
  {
    hide After, Cost;
  }

  /** `id` is the first listed id past `after`. */
  ghost predicate IsNext(s: Snap, after: Option<OpId>, id: OpId) {
    && id in s.ids && Past(after, id)
    && (forall y <- s.ids :: Past(after, y) && y != id ==> id < y)
  }

  lemma NextCost(s: Snap, after: Option<OpId>, id: OpId)
    requires IsNext(s, after, id)
    ensures Cost(s, After(s.ids, after)) == 1 + |Deps(s, id)| + Cost(s, After(s.ids, Some(id)))
  {
    hide Cost, Deps;
    assert After(s.ids, after) - {id} == After(s.ids, Some(id));
    CostRemove(s, After(s.ids, after), id);
  }

  lemma PassBare(s: Snap, start: Cursor, after: Option<OpId>, holes: Holes, left: nat, budget: nat, id: OpId)
    requires Stood(s, start, Cursor(after, None), holes, left, budget) && IsNext(s, after, id)
    requires id !in s.meta && left > 0
    ensures Stood(s, start, Cursor(Some(id), None), holes[id := None], left - 1, budget)
  {
    hide After, Cost;
    NextCost(s, after, id);
  }

  function Own(s: Snap, holes: Holes, id: OpId): Holes
    requires id in s.meta
  {
    if Resolvable(s, id) then holes else holes[id := Some(s.meta[id].gen)]
  }

  lemma PassWhole(s: Snap, start: Cursor, after: Option<OpId>, holes: Holes, left: nat, budget: nat, id: OpId,
                  more: Holes, left': nat)
    requires Stood(s, start, Cursor(after, None), holes, left, budget) && IsNext(s, after, id) && id in s.meta
    requires Noted(s, Deps(s, id), None, None, true, Own(s, holes, id), more)
    requires left == 1 + left' + |Deps(s, id)|
    ensures Stood(s, start, Cursor(Some(id), None), more, left', budget)
  {
    hide After, Cost;
    NextCost(s, after, id);
  }

  lemma PassPart(s: Snap, start: Cursor, after: Option<OpId>, holes: Holes, left: nat, budget: nat, id: OpId,
                 more: Holes, to: DepCursor)
    requires Stood(s, start, Cursor(after, None), holes, left, budget) && IsNext(s, after, id) && id in s.meta
    requires FromFits(s, id, to) && Noted(s, Deps(s, id), None, to.after, false, Own(s, holes, id), more)
    requires left + |After(Deps(s, id), to.after)| == 1 + |Deps(s, id)|
    ensures Stood(s, start, Cursor(after, Some((id, to))), more, 0, budget)
  {
    hide After, Cost, FromFits;
    NextCost(s, after, id);
  }

  datatype Step = Step(cursor: Cursor, holes: Holes, done: bool)

  /** Nothing listed lies past the cursor. */
  ghost predicate Finished(s: Snap, c: Cursor) {
    c.open.None? && forall y <- s.ids :: !Past(c.after, y)
  }

  lemma ListedNext(s: Snap, after: Option<OpId>, limit: nat, r: seq<OpId>, i: nat)
    requires Listing(s.ids, after, limit, r) && i < |r|
    ensures IsNext(s, LastOf(after, r[..i]), r[i])
  {
    hide Listing;
    ListingPrefix(s.ids, after, limit, r, i + 1);
    var part := r[..i + 1];
    var n := if i + 1 < |r| then i + 1 else limit;
    assert part[..|part| - 1] == r[..i];
    LastListed(s.ids, after, n, part);
    forall y | y in s.ids && Past(LastOf(after, r[..i]), y) && y != r[i]
      ensures r[i] < y
    {
      LastIsNext(s.ids, after, n, part, y);
    }
  }

  lemma ListedAll(s: Snap, after: Option<OpId>, limit: nat, r: seq<OpId>)
    requires Listing(s.ids, after, limit, r) && |r| < limit
    ensures Finished(s, Cursor(LastOf(after, r), None))
  {
    forall y | y in s.ids
      ensures !Past(LastOf(after, r), y)
    {
      if y in r {
        var i :| 0 <= i < |r| && r[i] == y;
        assert r[i] <= r[|r| - 1];
      } else if r != [] {
        assert Past(after, r[|r| - 1]);
      }
    }
  }

  lemma OpenIsUnfinished(s: Snap, c: Cursor)
    requires c.open.Some?
    ensures !Finished(s, c)
  {
  }

  lemma MoreListed(s: Snap, after: Option<OpId>, limit: nat, r: seq<OpId>, i: nat)
    requires Listing(s.ids, after, limit, r) && i + 1 < |r|
    ensures !Finished(s, Cursor(Some(r[i]), None))
  {
    assert r[i + 1] in s.ids && r[i] < r[i + 1];
  }

  /** A listing shorter than its limit is all there is. */
  lemma ListedCount(ids: set<OpId>, after: Option<OpId>, limit: nat, r: seq<OpId>)
    requires Listing(ids, after, limit, r)
    ensures |r| < limit <==> |After(ids, after)| < limit
  {
    DistinctSize(r);
    assert SetOf(r) <= After(ids, after);
    SubsetSize(SetOf(r), After(ids, after));
    if |r| < limit {
      assert SetOf(r) == After(ids, after);
    }
  }

  /** One listed id: its own presence, then its dependencies. */
  method ReadId(s: Snap, id: OpId, left: nat, holes: Holes, ghost start: Cursor, after: Option<OpId>, ghost budget: nat)
    returns (whole: bool, c: Cursor, left': nat, holes': Holes)
    requires Stood(s, start, Cursor(after, None), holes, left, budget) && IsNext(s, after, id) && left > 0
    ensures Stood(s, start, c, holes', left', budget) && left' < left
    ensures whole ==> c == Cursor(Some(id), None)
    ensures !whole ==> left' == 0 && c.open.Some?
  {
    hide Stood, IsNext, Noted, FromFits, Resolvable;
    if id !in s.meta {
      PassBare(s, start, after, holes, left, budget, id);
      return true, Cursor(Some(id), None), left - 1, holes[id := None];
    }
    var own := Own(s, holes, id);
    FirstFits(s, id);
    var r, to, rest, more := ReadEdges(s, id, FIRST, left - 1, own);
    whole, left', holes' := r.value, rest, more;
    if whole {
      NotedWhole(s, Deps(s, id), None, to.after, None, own, more);
      PassWhole(s, start, after, holes, left, budget, id, more, rest);
      c := Cursor(Some(id), None);
    } else {
      PassPart(s, start, after, holes, left, budget, id, more, to);
      c := Cursor(after, Some((id, to)));
    }
  }

  lemma FirstFits(s: Snap, id: OpId)
    requires id in s.meta
    ensures FromFits(s, id, FIRST) && After(Deps(s, id), None) == Deps(s, id)
  {
    assert After(Deps(s, id), None) == Deps(s, id);
  }

  /** Reads listed ids past `after` while the budget lasts. */
  method ReadListed(s: Snap, after: Option<OpId>, first: nat, found: Holes, ghost start: Cursor, ghost budget: nat)
    returns (step: Step, left: nat)
    requires Stood(s, start, Cursor(after, None), found, first, budget) && first > 0
    ensures Stood(s, start, step.cursor, step.holes, left, budget) && left <= first
    ensures !step.done ==> left == 0
    ensures step.done <==> Finished(s, step.cursor) && |After(s.ids, after)| < first
  {
    hide Stood, IsNext, Listing, Finished;
    var asked := first;
    var ids := List(s.ids, after, asked);
    ListingSize(s.ids, after, asked, ids);
    var c, holes := Cursor(after, None), found;
    left := first;
    assert ids[..0] == [];
    for i := 0 to |ids|
      invariant c == Cursor(LastOf(after, ids[..i]), None)
      invariant Stood(s, start, c, holes, left, budget)
      invariant left <= asked - i && (i < |ids| ==> left > 0)
    {
      ListedNext(s, after, asked, ids, i);
      var whole;
      whole, c, left, holes := ReadId(s, ids[i], left, holes, start, LastOf(after, ids[..i]), budget);
      if !whole {
        OpenIsUnfinished(s, c);
        return Step(c, holes, false), left;
      }
      assert c == Cursor(Some(ids[i]), None);
      assert LastOf(after, ids[..i + 1]) == Some(ids[i]);
      if left == 0 && i + 1 < |ids| {
        MoreListed(s, after, asked, ids, i);
        return Step(c, holes, false), left;
      }
    }
    assert ids[..|ids|] == ids;
    if |ids| < asked {
      ListedAll(s, after, asked, ids);
    }
    ListedCount(s.ids, after, asked, ids);
    step := Step(c, holes, |ids| < asked);
  }

  /**
   Reads on from a cursor, at most `most` ids and edges. A step that is not done spent its
   whole budget; one that is done has passed everything listed.
   */
  method ScanStep(s: Snap, cursor: Cursor, most: nat) returns (r: Result<Step, Refusal>, ghost left: nat)
    requires MayFit(s, cursor)
    ensures r.Ok? && left <= Max(most, 1)
    ensures Stood(s, cursor, r.value.cursor, r.value.holes, left, Max(most, 1))
    ensures !r.value.done ==> left == 0
    ensures r.value.done ==> Finished(s, r.value.cursor)
    ensures cursor.open.None? ==>
      (r.value.done <==> Finished(s, r.value.cursor) && |After(s.ids, cursor.after)| < Max(most, 1))
  {
    hide Stood, Noted, FromFits, Finished;
    var budget := Max(most, 1);
    var rest, holes, after := budget, map[], cursor.after;
    if cursor.open.Some? {
      var (id, from) := cursor.open.value;
      var whole, to;
      whole, to, rest, holes := ReadEdges(s, id, from, budget, map[]);
      if !whole.value {
        OpenPart(s, cursor, to, holes, budget);
        return Ok(Step(Cursor(cursor.after, Some((id, to))), holes, false)), rest;
      }
      if id in s.meta {
        NotedWhole(s, Deps(s, id), from.after, to.after, from.after, map[], holes);
      }
      OpenWhole(s, cursor, holes, rest, budget);
      after := Some(id);
    } else {
      StoodStart(s, cursor, budget);
      assert cursor == Cursor(after, None);
    }
    if rest == 0 {
      return Ok(Step(Cursor(after, None), holes, false)), rest;
    }
    var step, unspent := ReadListed(s, after, rest, holes, cursor, budget);
    return Ok(step), unspent;
  }

  // ---- a whole scan ----

  /** New holes joined to known ones; a generation once known stays. */
  function Join(known: Holes, found: Holes): (both: Holes)
    ensures both.Keys == known.Keys + found.Keys
  {
    map h | h in known.Keys + found.Keys ::
      if h in found && (h !in known || known[h].None?) then found[h] else known[h]
  }

  lemma JoinStood(s: Snap, a: Cursor, b: Cursor, c: Cursor, known: Holes, found: Holes)
    requires Between(s, a, b, known) && Dated(s, a, b, known) && Sound(s, known)
    requires Between(s, b, c, found) && Dated(s, b, c, found) && Sound(s, found)
    ensures Between(s, a, c, Join(known, found)) && Dated(s, a, c, Join(known, found)) && Sound(s, Join(known, found))
  {
    hide Resolvable, Deps, PassedId, PassedEdge, Between, IsHole;
    JoinBetween(s, a, b, c, known, found, Join(known, found));
  }

  /** A scan that passed everything from the start has exactly the one-shot holes. */
  lemma FinishedIsOneShot(s: Snap, c: Cursor, holes: Holes)
    requires Between(s, START, c, holes) && Dated(s, START, c, holes) && Sound(s, holes) && Finished(s, c)
    ensures OneShot(s, holes)
  {
    hide Resolvable, Deps;
    forall h | IsHole(s, h)
      ensures h in holes
    {
      if h !in s.ids {
        var y :| y in s.ids && h in Deps(s, y);
        assert PassedEdge(c, y, h) && !PassedEdge(START, y, h);
      }
    }
    forall h | h in holes
      ensures holes[h] == if h in s.ids && h in s.meta then Some(s.meta[h].gen) else None
    {
      assert IsHole(s, h);
      if h in s.ids {
        assert PassedId(c, h) && !PassedId(START, h);
      }
    }
  }

  /** Steps of any budget on one snapshot end, read each id and edge once, and find the one-shot holes. */
  method ScanAll(s: Snap, most: nat) returns (holes: Holes, steps: nat)
    ensures OneShot(s, holes)
    ensures (steps - 1) * Max(most, 1) <= Work(s, START)
  {
    hide FromFits, Between, Dated, Sound, Finished, Work, OneShot;
    var c := START;
    holes, steps := map[], 0;
    ScanStart(s);
    var done := false;
    while !done
      invariant CursorFits(s, c) && Rooted(s, c) && Between(s, START, c, holes) && Dated(s, START, c, holes)
      invariant Sound(s, holes)
      invariant !done ==> steps * Max(most, 1) + Work(s, c) == Work(s, START)
      invariant done ==> Finished(s, c) && (steps - 1) * Max(most, 1) <= Work(s, START)
      decreases !done, Work(s, c)
    {
      var r, left := ScanStep(s, c, most);
      var step := r.value;
      JoinStood(s, START, c, step.cursor, holes, step.holes);
      StepCost(steps, Max(most, 1));
      c, holes, steps, done := step.cursor, Join(holes, step.holes), steps + 1, step.done;
    }
    FinishedIsOneShot(s, c, holes);
  }

  lemma StepCost(steps: nat, budget: nat)
    ensures (steps + 1) * budget == steps * budget + budget
  {
  }

  lemma ScanStart(s: Snap)
    ensures CursorFits(s, START) && Between(s, START, START, map[]) && Dated(s, START, START, map[]) && Sound(s, map[])
  {
  }
}
