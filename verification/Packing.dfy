/** Framing operations into data messages within a message and a byte budget. */
module Packing {
  import opened Prelude

  /** An operation on the wire: its id and its encoded size. */
  datatype WireOp = WireOp(id: OpId, len: nat)

  type Message = m: seq<WireOp> | m != [] witness [WireOp(0, 0)]

  const MAX_FRAME_LEN: nat := 16 * 1024 * 1024
  const MAX_DATA_OPS: nat := 256

  /** The encoded size of a count: seven bits a byte. */
  function CountLen(n: nat): nat {
    if n < 128 then 1 else 1 + CountLen(n / 128)
  }

  lemma {:induction false} CountLenGrows(m: nat, n: nat)
    requires m <= n
    ensures CountLen(m) <= CountLen(n)
    decreases n
  {
    if n >= 128 && m >= 128 {
      CountLenGrows(m / 128, n / 128);
    }
  }

  /** What `k` groups of seven bits can count. */
  ghost function Groups(k: nat): nat {
    if k == 0 then 1 else 128 * Groups(k - 1)
  }

  /** A count takes as many bytes as it has groups of seven bits, and one for zero. */
  lemma {:induction false} CountLenIsGroups(n: nat)
    ensures CountLen(n) >= 1 && n < Groups(CountLen(n))
    ensures CountLen(n) > 1 ==> Groups(CountLen(n) - 1) <= n
  {
    if n < 128 {
      assert Groups(0) == 1 && Groups(1) == 128;
    } else {
      CountLenIsGroups(n / 128);
      assert Groups(0) == 1;
    }
  }

  function Sum(ops: seq<WireOp>): nat {
    if ops == [] then 0 else Sum(ops[..|ops| - 1]) + ops[|ops| - 1].len
  }

  /** The framed size of a data message: prefix, tag and topic, then the count and the operations. */
  function Framed(overhead: nat, ops: seq<WireOp>): nat {
    overhead + CountLen(|ops|) + Sum(ops)
  }

  lemma SumAppend(ops: seq<WireOp>, op: WireOp)
    ensures Sum(ops + [op]) == Sum(ops) + op.len
  {
  }

  predicate FitsFrame(overhead: nat, ops: seq<WireOp>) {
    |ops| <= MAX_DATA_OPS && Framed(overhead, ops) <= MAX_FRAME_LEN + 4
  }

  // ---- the packing, as one fold over the operations ----

  /** One more operation joins the last message if it has room, otherwise opens a new one. */
  function Add(overhead: nat, messages: seq<Message>, op: WireOp): seq<Message> {
    var n := |messages|;
    if n > 0 && FitsFrame(overhead, messages[n - 1] + [op])
    then messages[..n - 1] + [messages[n - 1] + [op]]
    else messages + [[op]]
  }

  function Pack(overhead: nat, ops: seq<WireOp>): seq<Message> {
    if ops == [] then [] else Add(overhead, Pack(overhead, ops[..|ops| - 1]), ops[|ops| - 1])
  }

  function Total(overhead: nat, messages: seq<Message>): nat {
    if messages == [] then 0
    else Total(overhead, messages[..|messages| - 1]) + Framed(overhead, messages[|messages| - 1])
  }

  function Flat(messages: seq<Message>): seq<WireOp> {
    if messages == [] then [] else Flat(messages[..|messages| - 1]) + messages[|messages| - 1]
  }

  lemma TotalAppend(overhead: nat, messages: seq<Message>, m: Message)
    ensures Total(overhead, messages + [m]) == Total(overhead, messages) + Framed(overhead, m)
    ensures Flat(messages + [m]) == Flat(messages) + m
  {
  }

  /** Packing keeps every operation in order, within the frame and count caps. */
  lemma {:induction false} PackHolds(overhead: nat, ops: seq<WireOp>)
    requires forall op <- ops :: FitsFrame(overhead, [op])
    ensures Flat(Pack(overhead, ops)) == ops
    ensures forall m <- Pack(overhead, ops) :: FitsFrame(overhead, m)
  {
    hide FitsFrame, Total;
    if ops != [] {
      var (init, op) := (ops[..|ops| - 1], ops[|ops| - 1]);
      PackHolds(overhead, init);
      AddHolds(overhead, Pack(overhead, init), op);
      assert init + [op] == ops;
    }
  }

  lemma AddHolds(overhead: nat, messages: seq<Message>, op: WireOp)
    requires FitsFrame(overhead, [op]) && forall m <- messages :: FitsFrame(overhead, m)
    ensures Flat(Add(overhead, messages, op)) == Flat(messages) + [op]
    ensures forall m <- Add(overhead, messages, op) :: FitsFrame(overhead, m)
  {
  }

  /** One more operation never takes less room. */
  lemma AddGrows(overhead: nat, messages: seq<Message>, op: WireOp)
    ensures |Add(overhead, messages, op)| >= |messages|
    ensures Total(overhead, Add(overhead, messages, op)) >= Total(overhead, messages)
  {
    var n := |messages|;
    if n > 0 && FitsFrame(overhead, messages[n - 1] + [op]) {
      var last := messages[n - 1];
      assert messages == messages[..n - 1] + [last];
      TotalAppend(overhead, messages[..n - 1], last);
      TotalAppend(overhead, messages[..n - 1], last + [op]);
      SumAppend(last, op);
      CountLenGrows(|last|, |last| + 1);
    } else {
      TotalAppend(overhead, messages, [op]);
    }
  }

  predicate Within(overhead: nat, messages: seq<Message>, maxMessages: nat, maxBytes: nat) {
    |messages| <= maxMessages && Total(overhead, messages) <= maxBytes
  }

  lemma PackNext(overhead: nat, ops: seq<WireOp>, n: nat)
    requires 0 < n <= |ops|
    ensures Pack(overhead, ops[..n]) == Add(overhead, Pack(overhead, ops[..n - 1]), ops[n - 1])
  {
    hide Add;
    assert ops[..n][..n - 1] == ops[..n - 1];
  }

  /** A longer prefix fits only where every shorter one does. */
  lemma {:induction false} PrefixFits(overhead: nat, ops: seq<WireOp>, m: nat, n: nat, maxMessages: nat, maxBytes: nat)
    requires m <= n <= |ops| && Within(overhead, Pack(overhead, ops[..n]), maxMessages, maxBytes)
    ensures Within(overhead, Pack(overhead, ops[..m]), maxMessages, maxBytes)
    decreases n
  {
    hide Pack, Add, Total;
    if m < n {
      PackNext(overhead, ops, n);
      AddGrows(overhead, Pack(overhead, ops[..n - 1]), ops[n - 1]);
      PrefixFits(overhead, ops, m, n - 1, maxMessages, maxBytes);
    }
  }

  datatype DataPage = DataPage(messages: seq<Message>, bytes: nat, cut: bool)

  datatype Refusal = TooLarge

  /** The page frames exactly the first operations; it is cut when the next one would overflow. */
  ghost predicate Frames(overhead: nat, ops: seq<WireOp>, maxMessages: nat, maxBytes: nat, page: DataPage) {
    var n := |Flat(page.messages)|;
    && n <= |ops|
    && page.messages == Pack(overhead, ops[..n])
    && page.bytes == Total(overhead, page.messages)
    && Within(overhead, page.messages, maxMessages, maxBytes)
    && (forall i :: 0 <= i < n ==> FitsFrame(overhead, [ops[i]]))
    && page.cut == (n < |ops|)
    && (page.cut ==> !Within(overhead, Pack(overhead, ops[..n + 1]), maxMessages, maxBytes))
  }

  /** Closed messages and the open one are the packing of what was taken. */
  ghost predicate Packed(overhead: nat, ops: seq<WireOp>, messages: seq<Message>, current: seq<WireOp>) {
    Pack(overhead, ops) == if current == [] then messages else messages + [current]
  }

  lemma AddPacked(overhead: nat, ops: seq<WireOp>, n: nat, messages: seq<Message>, current: seq<WireOp>)
    requires n < |ops| && Packed(overhead, ops[..n], messages, current) && (current == [] ==> messages == [])
    ensures
      var next := Pack(overhead, ops[..n + 1]);
      next == if current != [] && FitsFrame(overhead, current + [ops[n]])
              then messages + [current + [ops[n]]]
              else (if current == [] then messages else messages + [current]) + [[ops[n]]]
  {
    assert ops[..n + 1][..n] == ops[..n];
    if current != [] {
      var all := messages + [current];
      assert all[..|all| - 1] == messages;
    }
  }

  /**
   A page of data: a prefix within both budgets that no longer prefix is.
   It fails exactly when it comes to an operation that no frame can hold.
   */
  method SyncDataPage(overhead: nat, ops: seq<WireOp>, maxMessages: nat, maxBytes: nat)
    returns (r: Result<DataPage, Refusal>)
    ensures r.Ok? ==> Frames(overhead, ops, maxMessages, maxBytes, r.value)
    ensures r.Err? <==> GetsStuck(overhead, ops, maxMessages, maxBytes)
  {
    hide Pack, Total, FitsFrame, Sum, CountLen;
    var messages: seq<Message>, current: seq<WireOp> := [], [];
    var currentLen, closedBytes := 0, 0;
    var i := 0;
    PackNone(overhead, ops);
    while i < |ops|
      invariant i <= |ops| && Packed(overhead, ops[..i], messages, current)
      invariant current == [] ==> messages == [] && i == 0
      invariant currentLen == Sum(current) && closedBytes == Total(overhead, messages)
      invariant Within(overhead, Pack(overhead, ops[..i]), maxMessages, maxBytes)
      invariant forall j :: 0 <= j < i ==> FitsFrame(overhead, [ops[j]])
    {
      var op := ops[i];
      SumOne(op);
      FitsMeans(overhead, [op]);
      if overhead + CountLen(1) + op.len > MAX_FRAME_LEN + 4 {
        assert Stuck(overhead, ops, maxMessages, maxBytes, i);
        return Err(TooLarge);
      }
      SumAppend(current, op);
      FitsMeans(overhead, current + [op]);
      var joined := overhead + CountLen(|current| + 1) + currentLen + op.len;
      var joins := current != [] && |current| < MAX_DATA_OPS && joined <= MAX_FRAME_LEN + 4;
      var openBytes := if current == [] then 0 else overhead + CountLen(|current|) + currentLen;
      var (count, bytes) := if joins then (|messages| + 1, closedBytes + joined)
        else (|messages| + (if current == [] then 0 else 1) + 1,
          closedBytes + openBytes + overhead + CountLen(1) + op.len);
      AddPacked(overhead, ops, i, messages, current);
      NextTotal(overhead, messages, current, op);
      if count > maxMessages || bytes > maxBytes {
        r := Finish(overhead, ops[..i], messages, current, currentLen, closedBytes, true);
        PageOf(overhead, ops, maxMessages, maxBytes, i, r.value);
        return;
      }
      if !joins && current != [] {
        TotalAppend(overhead, messages, current);
        closedBytes, currentLen := closedBytes + openBytes, 0;
        messages, current := messages + [current], [];
      }
      currentLen := currentLen + op.len;
      current := current + [op];
      assert joins || current == [op];
      i := i + 1;
    }
    assert ops[..i] == ops;
    r := Finish(overhead, ops[..i], messages, current, currentLen, closedBytes, false);
    PageOf(overhead, ops, maxMessages, maxBytes, i, r.value);
  }

  /** Operation `n` fits no frame, and what comes before it fits the budgets. */
  ghost predicate Stuck(overhead: nat, ops: seq<WireOp>, maxMessages: nat, maxBytes: nat, n: nat) {
    && n < |ops| && !FitsFrame(overhead, [ops[n]])
    && (forall i :: 0 <= i < n ==> FitsFrame(overhead, [ops[i]]))
    && Within(overhead, Pack(overhead, ops[..n]), maxMessages, maxBytes)
  }

  ghost predicate GetsStuck(overhead: nat, ops: seq<WireOp>, maxMessages: nat, maxBytes: nat) {
    exists n: nat :: Stuck(overhead, ops, maxMessages, maxBytes, n)
  }

  /** A page of the first `n` operations, cut before one that would overflow, is never stuck. */
  lemma PageOf(overhead: nat, ops: seq<WireOp>, maxMessages: nat, maxBytes: nat, n: nat, page: DataPage)
    requires n <= |ops|
    requires page == DataPage(Pack(overhead, ops[..n]), Total(overhead, Pack(overhead, ops[..n])), n < |ops|)
    requires Within(overhead, page.messages, maxMessages, maxBytes)
    requires forall i :: 0 <= i < n ==> FitsFrame(overhead, [ops[i]])
    requires n < |ops| ==>
      FitsFrame(overhead, [ops[n]]) && !Within(overhead, Pack(overhead, ops[..n + 1]), maxMessages, maxBytes)
    ensures Frames(overhead, ops, maxMessages, maxBytes, page)
    ensures !GetsStuck(overhead, ops, maxMessages, maxBytes)
  {
    hide Pack, Total, FitsFrame;
    PackHolds(overhead, ops[..n]);
    forall m: nat | Stuck(overhead, ops, maxMessages, maxBytes, m)
      ensures false
    {
      assert m > n;
      PrefixFits(overhead, ops, n + 1, m, maxMessages, maxBytes);
    }
  }

  lemma SumOne(op: WireOp)
    ensures Sum([op]) == op.len
  {
  }

  lemma PackNone(overhead: nat, ops: seq<WireOp>)
    ensures Packed(overhead, ops[..0], [], []) && Total(overhead, []) == 0 && Sum([]) == 0
    ensures Pack(overhead, ops[..0]) == []
  {
  }

  lemma FitsMeans(overhead: nat, ops: seq<WireOp>)
    ensures FitsFrame(overhead, ops) <==>
      |ops| <= MAX_DATA_OPS && overhead + CountLen(|ops|) + Sum(ops) <= MAX_FRAME_LEN + 4
  {
  }

  /** What the messages come to with the operation added. */
  lemma NextTotal(overhead: nat, messages: seq<Message>, current: seq<WireOp>, op: WireOp)
    ensures
      var joined: Message := current + [op];
      Total(overhead, messages + [joined])
        == Total(overhead, messages) + overhead + CountLen(|current| + 1) + Sum(current) + op.len
    ensures
      var all := if current == [] then messages else messages + [current];
      Total(overhead, all + [[op]]) == Total(overhead, messages)
        + (if current == [] then 0 else overhead + CountLen(|current|) + Sum(current)) + overhead + CountLen(1) + op.len
  {
    SumAppend(current, op);
    SumAppend([], op);
    TotalAppend(overhead, messages, current + [op]);
    if current == [] {
      TotalAppend(overhead, messages, [op]);
    } else {
      TotalAppend(overhead, messages, current);
      TotalAppend(overhead, messages + [current], [op]);
    }
  }

  /** Closes the open message. */
  method Finish(overhead: nat, ghost ops: seq<WireOp>, messages: seq<Message>, current: seq<WireOp>, currentLen: nat,
                closedBytes: nat, cut: bool)
    returns (r: Result<DataPage, Refusal>)
    requires Packed(overhead, ops, messages, current)
    requires currentLen == Sum(current) && closedBytes == Total(overhead, messages)
    ensures r == Ok(DataPage(Pack(overhead, ops), Total(overhead, Pack(overhead, ops)), cut))
  {
    hide Pack, Total;
    if current == [] {
      return Ok(DataPage(messages, closedBytes, cut));
    }
    TotalAppend(overhead, messages, current);
    return Ok(DataPage(messages + [current], closedBytes + overhead + CountLen(|current|) + currentLen, cut));
  }

  /** A page is an exact prefix within the caps and budgets, and no longer prefix fits. */
  lemma PageIsLongestPrefix(overhead: nat, ops: seq<WireOp>, maxMessages: nat, maxBytes: nat, page: DataPage, m: nat)
    requires Frames(overhead, ops, maxMessages, maxBytes, page) && m <= |ops|
    ensures Flat(page.messages) <= ops && forall b <- page.messages :: FitsFrame(overhead, b)
    ensures m > |Flat(page.messages)| ==> !Within(overhead, Pack(overhead, ops[..m]), maxMessages, maxBytes)
  {
    hide FitsFrame, Total, Pack, Within, Flat;
    var n := |Flat(page.messages)|;
    PackHolds(overhead, ops[..n]);
    if m > n && Within(overhead, Pack(overhead, ops[..m]), maxMessages, maxBytes) {
      PrefixFits(overhead, ops, n + 1, m, maxMessages, maxBytes);
    }
  }
}
