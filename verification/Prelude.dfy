/** Types shared by every part of the model. */
module Prelude {

  datatype Option<+T> = None | Some(value: T)

  datatype Result<+T, +E> = Ok(value: T) | Err(error: E)

  const U64_MAX: int := 0xFFFF_FFFF_FFFF_FFFF

  type u64 = x: int | 0 <= x <= U64_MAX

  // Identifiers are 32-byte hashes compared byte by byte. Only equality and the
  // total order matter to the operation log, so they are numbers here.
  type OpId = nat
  type PeerId = nat
  type ActorId = nat
  type TopicId = nat

  /** A vector clock as the plain map it denotes. */
  type Clock = map<ActorId, u64>

  function Get(c: Clock, a: ActorId): (s: u64) {
    if a in c then c[a] else 0
  }

  function Max(x: int, y: int): (m: int)
    ensures m >= x && m >= y && (m == x || m == y)
  {
    if x < y then y else x
  }

  function Min(x: int, y: int): (m: int)
    ensures m <= x && m <= y && (m == x || m == y)
  {
    if x < y then x else y
  }

  function Reversed<T>(s: seq<T>): (r: seq<T>)
    ensures |r| == |s| && forall i :: 0 <= i < |s| ==> r[i] == s[|s| - 1 - i]
  {
    if s == [] then [] else Reversed(s[1..]) + [s[0]]
  }

  ghost predicate NoRepeats<T>(s: seq<T>) {
    forall i, j :: 0 <= i < j < |s| ==> s[i] != s[j]
  }

  method Least(ids: set<nat>) returns (x: nat)
    requires ids != {}
    ensures x in ids && forall y <- ids :: x <= y
  {
    x :| x in ids;
    var rest := ids - {x};
    while rest != {}
      invariant x in ids && rest <= ids && forall y <- ids :: y in rest || x <= y
      decreases rest
    {
      var y :| y in rest;
      if y < x {
        x := y;
      }
      rest := rest - {y};
    }
  }

  lemma Times(a: nat, x: int, y: int)
    requires x <= y
    ensures a * x <= a * y
  {
  }

  ghost function SetOf(ids: seq<nat>): set<nat> {
    set id <- ids
  }

  lemma SetOfMore(ids: seq<nat>, id: nat)
    ensures SetOf(ids + [id]) == SetOf(ids) + {id}
  {
  }

  lemma {:induction false} DistinctSize(ids: seq<nat>)
    requires forall i, j :: 0 <= i < j < |ids| ==> ids[i] < ids[j]
    ensures |SetOf(ids)| == |ids|
  {
    if ids != [] {
      var (init, last) := (ids[..|ids| - 1], ids[|ids| - 1]);
      DistinctSize(init);
      assert ids == init + [last];
      assert last !in SetOf(init);
      SetOfMore(init, last);
    }
  }

  lemma {:induction false} SubsetSize(a: set<nat>, b: set<nat>)
    requires a <= b
    ensures |a| <= |b|
  {
    if a != {} {
      var x :| x in a;
      SubsetSize(a - {x}, b - {x});
    }
  }
}
