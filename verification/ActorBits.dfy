/** Actor ids as 32 bytes read as 64 nibbles, high nibble first. */
module ActorBits {
  import opened Prelude

  type Byte = x: int | 0 <= x < 256
  type Actor = s: seq<Byte> | |s| == 32 witness
    [0, 0, 0, 0, 0, 0, 0, 0, 0, 0, 0, 0, 0, 0, 0, 0, 0, 0, 0, 0, 0, 0, 0, 0, 0, 0, 0, 0, 0, 0, 0, 0]

  const LEVELS: nat := 64

  const ZERO_ACTOR: Actor :=
    [0, 0, 0, 0, 0, 0, 0, 0, 0, 0, 0, 0, 0, 0, 0, 0, 0, 0, 0, 0, 0, 0, 0, 0, 0, 0, 0, 0, 0, 0, 0, 0]

  function Nibble(a: Actor, level: nat): (n: nat)
    requires level < LEVELS
    ensures n < 16
  {
    if level % 2 == 0 then a[level / 2] / 16 else a[level / 2] % 16
  }

  /** The first byte from `i` on where the ids differ. */
  function FirstByte(a: Actor, b: Actor, i: nat): (r: Option<nat>)
    requires i <= 32
    ensures r.None? ==> forall j :: i <= j < 32 ==> a[j] == b[j]
    ensures r.Some? ==> i <= r.value < 32 && a[r.value] != b[r.value] && forall j :: i <= j < r.value ==> a[j] == b[j]
    decreases 32 - i
  {
    if i == 32 then None else if a[i] != b[i] then Some(i) else FirstByte(a, b, i + 1)
  }

  ghost predicate Agree(a: Actor, b: Actor, n: nat)
    requires n <= LEVELS
  {
    forall l :: 0 <= l < n ==> Nibble(a, l) == Nibble(b, l)
  }

  /** How far two ids agree, none when they are equal. */
  function FirstDifference(a: Actor, b: Actor): (r: Option<nat>)
    ensures r.None? <==> a == b
    ensures r.Some? ==> r.value < LEVELS && Agree(a, b, r.value) && Nibble(a, r.value) != Nibble(b, r.value)
  {
    match FirstByte(a, b, 0)
    case None => None
    case Some(byte) =>
      // The high halves agree when the exclusive or of the bytes has no high bit.
      var level := byte * 2 + (if a[byte] / 16 == b[byte] / 16 then 1 else 0);
      FirstNibble(a, b, byte, level);
      Some(level)
  }

  lemma FirstNibble(a: Actor, b: Actor, byte: nat, level: nat)
    requires byte < 32 && a[byte] != b[byte] && forall j :: 0 <= j < byte ==> a[j] == b[j]
    requires level == byte * 2 + (if a[byte] / 16 == b[byte] / 16 then 1 else 0)
    ensures Agree(a, b, level) && Nibble(a, level) != Nibble(b, level)
  {
  }

  /** Byte order, which is how ids compare. */
  ghost predicate Less(a: Actor, b: Actor) {
    exists i :: 0 <= i < 32 && a[..i] == b[..i] && a[i] < b[i]
  }

  /** Byte order is decided by the first nibble that differs. */
  lemma NibbleOrder(a: Actor, b: Actor, l: nat)
    requires l < LEVELS && Agree(a, b, l) && Nibble(a, l) < Nibble(b, l)
    ensures Less(a, b)
  {
    var i := l / 2;
    forall j | 0 <= j < i
      ensures a[j] == b[j]
    {
      assert Nibble(a, 2 * j) == Nibble(b, 2 * j);
      assert Nibble(a, 2 * j + 1) == Nibble(b, 2 * j + 1);
    }
    assert a[..i] == b[..i];
    if l % 2 == 1 {
      assert Nibble(a, l - 1) == Nibble(b, l - 1);
    }
  }

  lemma AgreeTrans(a: Actor, b: Actor, c: Actor, n: nat)
    requires n <= LEVELS && Agree(a, b, n) && Agree(b, c, n)
    ensures Agree(a, c, n)
  {
  }

  lemma AgreeSym(a: Actor, b: Actor, n: nat)
    requires n <= LEVELS && Agree(a, b, n)
    ensures Agree(b, a, n)
  {
  }

  lemma AgreeSelf(a: Actor, n: nat)
    requires n <= LEVELS
    ensures Agree(a, a, n)
  {
  }

  lemma AgreeLess(a: Actor, b: Actor, m: nat, n: nat)
    requires m <= n <= LEVELS && Agree(a, b, n)
    ensures Agree(a, b, m) && (m < n ==> Nibble(a, m) == Nibble(b, m))
  {
  }

  /** Ids agree on fewer nibbles than the first they differ at. */
  lemma AgreeBefore(a: Actor, b: Actor, n: nat)
    requires n <= LEVELS
    ensures Agree(a, b, n) <==> FirstDifference(a, b).None? || n <= FirstDifference(a, b).value
  {
  }
}
