/** How one call of the reader ends, told from what its reads come back with. */
module FramingInterruptions {
  import opened Wrappers
  import opened Bytes
  import opened PeerMessages
  import opened Framing

  // ---------- what a call has seen so far ----------

  /** How many reads a frame of `n` bytes takes. */
  function Reads(n: nat): nat { (n + 1023) / 1024 }

  /** What the first read shows of the frame: its bytes, and zeros up to the size of the buffer. */
  function Shown(chunk: seq<byte>): seq<byte>
    requires |chunk| <= 1024
  {
    chunk + seq(1024 - |chunk|, _ => 0)
  }

  /** The call waits for more: it has met time-outs during a download, and chunks of which the first announces more
      bytes than have been read for. */
  ghost predicate Incomplete(pre: seq<Arrival>) {
    && AllDeliverable(pre) && Undisturbed(pre)
    && var chunks := Chunked(pre);
       |chunks| > 0 ==>
         && |chunks[0]| <= 1024 && ParseRawPeerMsgLength(Shown(chunks[0])).Ok?
         && |chunks| < Reads(ParseRawPeerMsgLength(Shown(chunks[0])).value)
  }

  /** The last chunk the call has been waiting for. */
  ghost predicate Completes(pre: seq<Arrival>, chunk: seq<byte>, n: nat) {
    && Incomplete(pre) && 0 < |chunk| <= 1024
    && var chunks := Chunked(pre) + [chunk];
       && |chunks[0]| <= 1024 && ParseRawPeerMsgLength(Shown(chunks[0])) == Ok(n) && |chunks| == Reads(n)
  }

  /** The byte that position `i` of the buffer holds after read `j`: from the latest chunk that reaches that far. */
  function ByteAt(chunks: seq<seq<byte>>, j: nat, i: nat): byte
    requires j < |chunks|
    decreases j
  {
    if i < |chunks[j]| then chunks[j][i] else if j == 0 then 0 else ByteAt(chunks, j - 1, i)
  }

  // ---------- the buffer and the bytes collected ----------

  /** The buffer after the chunks. */
  function BufferAfter(chunks: seq<seq<byte>>): (r: seq<byte>)
    requires Deliverable(chunks)
    ensures |r| == BUFFER_SIZE
  {
    if |chunks| == 0 then EmptyBuffer()
    else
      assert chunks[|chunks| - 1] in chunks;
      Overlay(chunks[|chunks| - 1], BufferAfter(chunks[..|chunks| - 1]))
  }

  /** The buffers after each of the chunks, one after the other. */
  function Buffers(chunks: seq<seq<byte>>): (r: seq<byte>)
    requires Deliverable(chunks)
    ensures |r| == BUFFER_SIZE * |chunks|
  {
    if |chunks| == 0 then [] else Buffers(chunks[..|chunks| - 1]) + BufferAfter(chunks)
  }

  lemma {:induction false} BufferHolds(chunks: seq<seq<byte>>, all: seq<seq<byte>>, i: nat)
    requires Deliverable(chunks)
    requires 0 < |chunks| && chunks <= all && i < BUFFER_SIZE
    ensures BufferAfter(chunks)[i] == ByteAt(all, |chunks| - 1, i)
  {
    var n := |chunks| - 1;
    assert chunks[n] in chunks && all[n] == chunks[n];
    if i >= |chunks[n]| && n > 0 {
      BufferHolds(chunks[..n], all, i);
    }
  }

  lemma {:induction false} BuffersHold(chunks: seq<seq<byte>>, all: seq<seq<byte>>, q: nat)
    requires Deliverable(chunks)
    requires chunks <= all && q < BUFFER_SIZE * |chunks|
    ensures q / 1024 < |all| && Buffers(chunks)[q] == ByteAt(all, q / 1024, q % 1024)
  {
    var n := |chunks| - 1;
    if q < BUFFER_SIZE * n {
      BuffersHold(chunks[..n], all, q);
    } else {
      BufferHolds(chunks, all, q - BUFFER_SIZE * n);
    }
  }

  // ---------- following a call ----------

  lemma {:induction false} ChunkedAppend(a: seq<Arrival>, b: seq<Arrival>)
    ensures Chunked(a + b) == Chunked(a) + Chunked(b)
  {
    if |a| == 0 {
      assert a + b == b;
    } else {
      ChunkedAppend(a[1..], b);
      assert (a + b)[1..] == a[1..] + b && (a + b)[0] == a[0];
    }
  }

  lemma DeliverableParts(a: seq<Arrival>, b: seq<Arrival>)
    ensures AllDeliverable(a + b) <==> AllDeliverable(a) && AllDeliverable(b)
  {
    if AllDeliverable(a + b) {
      assert forall x :: x in a ==> x in a + b;
      assert forall x :: x in b ==> x in a + b;
    }
  }

  /** The first chunk tells how many bytes are outstanding. */
  lemma {:induction false} LengthIsTold(buf: seq<byte>, total: seq<byte>, pre: seq<Arrival>, tail: seq<Arrival>, n: nat)
    requires |buf| == BUFFER_SIZE && AllDeliverable(pre + tail) && Undisturbed(pre) && n > 0
    requires |Chunked(pre)| > 0 && |Chunked(pre)[0]| <= BUFFER_SIZE
    requires ParseRawPeerMsgLength(Overlay(Chunked(pre)[0], buf)) == Ok(n)
    ensures CollectTimed(buf, 0, total, pre + tail) == CollectTimed(buf, n, total, pre + tail)
    decreases |pre|
  {
    var arrivals := pre + tail;
    assert arrivals[0] == pre[0] && pre[0] in pre && arrivals[0] in arrivals;
    if pre[0].TimedOut? {
      assert arrivals[1..] == pre[1..] + tail;
      DeliverableParts(arrivals[..1], arrivals[1..]);
      assert arrivals[..1] + arrivals[1..] == arrivals;
      assert Chunked(pre) == Chunked(pre[1..]);
      LengthIsTold(buf, total, pre[1..], tail, n);
    }
  }

  /** Where a call for a frame of `n` bytes stands before `tail`: it holds what the chunks have brought. */
  ghost predicate StandsAt(n: nat, pre: seq<Arrival>, tail: seq<Arrival>)
    requires AllDeliverable(pre + tail) && AllDeliverable(tail) && Deliverable(Chunked(pre))
    requires n >= BUFFER_SIZE * |Chunked(pre)|
  {
    var chunks := Chunked(pre);
    CollectTimed(EmptyBuffer(), n, [], pre + tail)
    == CollectTimed(BufferAfter(chunks), n - BUFFER_SIZE * |chunks|, Buffers(chunks), tail)
  }

  lemma WellPlaced(n: nat, pre: seq<Arrival>, tail: seq<Arrival>)
    requires AllDeliverable(pre + tail) && |Chunked(pre)| < Reads(n)
    ensures AllDeliverable(tail) && AllDeliverable(pre) && Deliverable(Chunked(pre)) && n > BUFFER_SIZE * |Chunked(pre)|
  {
    DeliverableParts(pre, tail);
    ChunkedIsDeliverable(pre);
    MoreOutstanding(n, |Chunked(pre)|);
  }

  /** While bytes are outstanding each chunk brings a buffer's worth of them. */
  lemma {:induction false} BytesComeIn(n: nat, pre: seq<Arrival>, tail: seq<Arrival>)
    requires AllDeliverable(pre + tail) && Undisturbed(pre) && |Chunked(pre)| < Reads(n)
    ensures AllDeliverable(tail) && Deliverable(Chunked(pre)) && n > BUFFER_SIZE * |Chunked(pre)|
    ensures StandsAt(n, pre, tail)
    decreases |pre|
  {
    WellPlaced(n, pre, tail);
    if |pre| == 0 {
      assert pre + tail == tail;
    } else {
      var front, a := pre[..|pre| - 1], pre[|pre| - 1];
      assert pre == front + [a];
      AllButLast(front, a, tail);
      BytesComeIn(n, front, [a] + tail);
      OneArrival(n, Chunked(front), a, Chunked(pre), tail);
    }
  }

  lemma MoreOutstanding(n: nat, seen: nat)
    requires seen < Reads(n)
    ensures n > BUFFER_SIZE * seen
  {
  }

  lemma AllButLast(front: seq<Arrival>, a: Arrival, tail: seq<Arrival>)
    requires AllDeliverable(front + [a] + tail) && Undisturbed(front + [a])
    ensures front + [a] + tail == front + ([a] + tail)
    ensures AllDeliverable([a] + tail) && AllDeliverable(tail) && Undisturbed(front)
    ensures a.Data? || a == TimedOut(true)
    ensures Chunked(front + [a]) == if a.Data? then Chunked(front) + [a.bytes] else Chunked(front)
  {
    assert front + [a] + tail == front + ([a] + tail);
    DeliverableParts(front, [a] + tail);
    DeliverableParts([a], tail);
    ChunkedAppend(front, [a]);
    assert Chunked([a]) == if a.Data? then [a.bytes] else [];
    assert a in front + [a] && forall x :: x in front ==> x in front + [a];
  }

  lemma BuffersGrow(cs: seq<seq<byte>>, chunk: seq<byte>)
    requires Deliverable(cs) && 0 < |chunk| <= BUFFER_SIZE
    ensures Deliverable(cs + [chunk])
    ensures Buffers(cs + [chunk]) == Buffers(cs) + Overlay(chunk, BufferAfter(cs))
  {
    var cs' := cs + [chunk];
    assert cs'[..|cs'| - 1] == cs && cs'[|cs'| - 1] == chunk;
  }

  lemma NextRound(buf: seq<byte>, n: nat, total: seq<byte>, chunk: seq<byte>, tail: seq<Arrival>)
    requires |buf| == BUFFER_SIZE < n && 0 < |chunk| <= BUFFER_SIZE && AllDeliverable(tail)
    ensures AllDeliverable([Data(chunk)] + tail)
    ensures CollectTimed(buf, n, total, [Data(chunk)] + tail)
         == CollectTimed(Overlay(chunk, buf), n - BUFFER_SIZE, total + Overlay(chunk, buf), tail)
  {
    var arrivals := [Data(chunk)] + tail;
    assert arrivals[0] == Data(chunk) && arrivals[1..] == tail;
    assert Overlay(chunk, buf)[..BUFFER_SIZE] == Overlay(chunk, buf);
  }

  lemma QuietRound(buf: seq<byte>, n: nat, total: seq<byte>, tail: seq<Arrival>)
    requires |buf| == BUFFER_SIZE && AllDeliverable(tail)
    ensures AllDeliverable([TimedOut(true)] + tail)
    ensures CollectTimed(buf, n, total, [TimedOut(true)] + tail) == CollectTimed(buf, n, total, tail)
  {
    var arrivals := [TimedOut(true)] + tail;
    assert arrivals[0] == TimedOut(true) && arrivals[1..] == tail;
  }

  /** One more arrival, `cs` and `cs'` being the chunks before and after it. */
  lemma OneArrival(n: nat, cs: seq<seq<byte>>, a: Arrival, cs': seq<seq<byte>>, tail: seq<Arrival>)
    requires Deliverable(cs) && Deliverable(cs') && AllDeliverable([a] + tail) && AllDeliverable(tail)
    requires (a.Data? && cs' == cs + [a.bytes]) || (a == TimedOut(true) && cs' == cs)
    requires n > BUFFER_SIZE * |cs'|
    ensures CollectTimed(BufferAfter(cs), n - BUFFER_SIZE * |cs|, Buffers(cs), [a] + tail)
         == CollectTimed(BufferAfter(cs'), n - BUFFER_SIZE * |cs'|, Buffers(cs'), tail)
  {
    if a.Data? {
      assert a.bytes in cs';
      NextRound(BufferAfter(cs), n - BUFFER_SIZE * |cs|, Buffers(cs), a.bytes, tail);
      BuffersGrow(cs, a.bytes);
    } else {
      QuietRound(BufferAfter(cs), n - BUFFER_SIZE * |cs|, Buffers(cs), tail);
    }
  }

  lemma ShownIsOverlay(chunk: seq<byte>)
    requires |chunk| <= 1024
    ensures Overlay(chunk, EmptyBuffer()) == Shown(chunk)
  {
  }

  lemma {:induction false} QuietSoFar(pre: seq<Arrival>, tail: seq<Arrival>)
    requires AllDeliverable(pre + tail) && Undisturbed(pre) && |Chunked(pre)| == 0
    ensures AllDeliverable(tail)
    ensures CollectTimed(EmptyBuffer(), 0, [], pre + tail) == CollectTimed(EmptyBuffer(), 0, [], tail)
    decreases |pre|
  {
    DeliverableParts(pre, tail);
    if |pre| == 0 {
      assert pre + tail == tail;
    } else {
      var arrivals := pre + tail;
      assert pre[0] in pre && arrivals[0] == pre[0] && arrivals[1..] == pre[1..] + tail;
      assert pre == pre[..1] + pre[1..];
      DeliverableParts(pre[..1], pre[1..]);
      DeliverableParts(pre[1..], tail);
      QuietSoFar(pre[1..], tail);
    }
  }

  /** A call that waits for more has read for less than it will. */
  lemma WaitsOnIncomplete(pre: seq<Arrival>, tail: seq<Arrival>)
    returns (buf: seq<byte>, remaining: nat, total: seq<byte>)
    requires Incomplete(pre) && AllDeliverable(tail)
    ensures AllDeliverable(pre + tail) && |buf| == BUFFER_SIZE
    ensures CollectTimed(EmptyBuffer(), 0, [], pre + tail) == CollectTimed(buf, remaining, total, tail)
  {
    DeliverableParts(pre, tail);
    var chunks := Chunked(pre);
    if |chunks| == 0 {
      QuietSoFar(pre, tail);
      buf, remaining, total := EmptyBuffer(), 0, [];
    } else {
      ShownIsOverlay(chunks[0]);
      var n := ParseRawPeerMsgLength(Shown(chunks[0])).value;
      LengthIsTold(EmptyBuffer(), [], pre, tail, n);
      BytesComeIn(n, pre, tail);
      buf, remaining, total := BufferAfter(chunks), n - BUFFER_SIZE * |chunks|, Buffers(chunks);
    }
  }

  // ---------- how a call ends ----------

  /** A call that waits for more is ended by a time-out outside a download, a reset and any other fault, whatever
      would have followed. */
  lemma InterruptionEndsCall(pre: seq<Arrival>, x: Arrival, rest: seq<Arrival>)
    requires Incomplete(pre) && AllDeliverable(rest) && !x.Data? && (x.TimedOut? ==> !x.downloading)
    ensures AllDeliverable(pre + ([x] + rest))
    ensures CollectTimed(EmptyBuffer(), 0, [], pre + ([x] + rest))
         == Broken(if x.TimedOut? then "ERR_PEER_LISTEN_TIMEOUT"
                   else if x.Reset? then "ERR_PEER_LISTEN_RESET" else "ERR_PEER_LISTEN")
  {
    var tail := [x] + rest;
    DeliverableParts([x], rest);
    var buf, remaining, total := WaitsOnIncomplete(pre, tail);
    assert tail[0] == x;
  }

  /** The end of the connection ends a call that waits for more. */
  lemma EndOfConnectionEndsCall(pre: seq<Arrival>)
    requires Incomplete(pre)
    ensures CollectTimed(EmptyBuffer(), 0, [], pre) == Broken("ERR_PEER_LISTEN_EOF")
  {
    var buf, remaining, total := WaitsOnIncomplete(pre, []);
    assert pre + [] == pre;
  }

  /** A first chunk that shows no length, or one beyond the limit, ends the call, whatever would have followed. */
  lemma BadLengthEndsCall(pre: seq<Arrival>, chunk: seq<byte>, rest: seq<Arrival>)
    requires Incomplete(pre) && |Chunked(pre)| == 0 && 0 < |chunk| <= 1024 && AllDeliverable(rest)
    requires !ParseRawPeerMsgLength(Shown(chunk)).Ok?
    ensures AllDeliverable(pre + ([Data(chunk)] + rest))
    ensures CollectTimed(EmptyBuffer(), 0, [], pre + ([Data(chunk)] + rest)) == Broken("ERR_PEER_LISTEN")
  {
    var tail := [Data(chunk)] + rest;
    DeliverableParts([Data(chunk)], rest);
    DeliverableParts(pre, tail);
    QuietSoFar(pre, tail);
    assert tail[0] == Data(chunk);
    ShownIsOverlay(chunk);
  }

  lemma FinalRound(buf: seq<byte>, n: nat, total: seq<byte>, chunk: seq<byte>, rest: seq<Arrival>)
    requires |buf| == BUFFER_SIZE && 0 < n <= BUFFER_SIZE && 0 < |chunk| <= BUFFER_SIZE && AllDeliverable(rest)
    ensures AllDeliverable([Data(chunk)] + rest)
    ensures CollectTimed(buf, n, total, [Data(chunk)] + rest) == Received(total + Overlay(chunk, buf)[..n], rest)
  {
    var arrivals := [Data(chunk)] + rest;
    assert arrivals[0] == Data(chunk) && arrivals[1..] == rest;
  }

  lemma LastChunk(n: nat, pre: seq<Arrival>, chunk: seq<byte>, rest: seq<Arrival>)
    requires Incomplete(pre) && 0 < |chunk| <= 1024 && AllDeliverable(rest) && |Chunked(pre)| + 1 == Reads(n)
    ensures AllDeliverable(pre + ([Data(chunk)] + rest))
    ensures Deliverable(Chunked(pre) + [chunk])
    ensures |Buffers(Chunked(pre) + [chunk])| >= n
    ensures CollectTimed(EmptyBuffer(), n, [], pre + ([Data(chunk)] + rest))
         == Received(Buffers(Chunked(pre) + [chunk])[..n], rest)
  {
    DeliverableParts([Data(chunk)], rest);
    DeliverableParts(pre, [Data(chunk)] + rest);
    BytesComeIn(n, pre, [Data(chunk)] + rest);
    BuffersGrow(Chunked(pre), chunk);
    FinalBytes(n, Chunked(pre), chunk, rest);
  }

  lemma FinalBytes(n: nat, cs: seq<seq<byte>>, chunk: seq<byte>, rest: seq<Arrival>)
    requires Deliverable(cs) && Deliverable(cs + [chunk])
    requires BUFFER_SIZE * |cs| < n <= BUFFER_SIZE * (|cs| + 1)
    requires 0 < |chunk| <= BUFFER_SIZE && AllDeliverable(rest)
    ensures AllDeliverable([Data(chunk)] + rest)
    ensures CollectTimed(BufferAfter(cs), n - BUFFER_SIZE * |cs|, Buffers(cs), [Data(chunk)] + rest)
         == Received(Buffers(cs + [chunk])[..n], rest)
  {
    var last := n - BUFFER_SIZE * |cs|;
    FinalRound(BufferAfter(cs), last, Buffers(cs), chunk, rest);
    BuffersGrow(cs, chunk);
    CutSum(Buffers(cs), Overlay(chunk, BufferAfter(cs)), last);
  }

  lemma CutSum(a: seq<byte>, b: seq<byte>, n: nat)
    requires n <= |b|
    ensures (a + b)[..|a| + n] == a + b[..n]
  {
  }

  lemma LastChunkIsRead(pre: seq<Arrival>, chunk: seq<byte>, n: nat, rest: seq<Arrival>)
    requires Completes(pre, chunk, n) && AllDeliverable(rest)
    ensures AllDeliverable(pre + ([Data(chunk)] + rest))
    ensures Deliverable(Chunked(pre) + [chunk])
    ensures |Buffers(Chunked(pre) + [chunk])| >= n
    ensures CollectTimed(EmptyBuffer(), 0, [], pre + ([Data(chunk)] + rest))
         == Received(Buffers(Chunked(pre) + [chunk])[..n], rest)
  {
    var upTo, chunks := pre + [Data(chunk)], Chunked(pre) + [chunk];
    assert upTo + rest == pre + ([Data(chunk)] + rest);
    LastChunk(n, pre, chunk, rest);
    ChunkedAppend(pre, [Data(chunk)]);
    assert Chunked([Data(chunk)]) == [chunk];
    assert forall a :: a in upTo ==> a in pre || a == Data(chunk);
    ShownIsOverlay(chunks[0]);
    LengthIsTold(EmptyBuffer(), [], upTo, rest, n);
  }

  /** With the last chunk the call has been waiting for it comes back with the frame: as many bytes as the first
      chunk announced, each from the latest chunk that reached its place in the buffer.  What follows has no effect
      and is left for the next call. */
  lemma LastChunkEndsCall(pre: seq<Arrival>, chunk: seq<byte>, n: nat, rest: seq<Arrival>)
    requires Completes(pre, chunk, n) && AllDeliverable(rest)
    ensures AllDeliverable(pre + ([Data(chunk)] + rest))
    ensures var r := CollectTimed(EmptyBuffer(), 0, [], pre + ([Data(chunk)] + rest));
      && r.Received? && r.rest == rest && |r.bytes| == n
      && forall q :: 0 <= q < n ==>
           q / 1024 <= |Chunked(pre)| && r.bytes[q] == ByteAt(Chunked(pre) + [chunk], q / 1024, q % 1024)
  {
    var chunks := Chunked(pre) + [chunk];
    LastChunkIsRead(pre, chunk, n, rest);
    forall q | 0 <= q < n
      ensures q / 1024 < |chunks| && Buffers(chunks)[q] == ByteAt(chunks, q / 1024, q % 1024)
    {
      BuffersHold(chunks, chunks, q);
    }
  }

  /** What ends a call that waits for more. */
  ghost predicate Ends(pre: seq<Arrival>, x: Arrival) {
    match x
    case Reset => true
    case Fault => true
    case TimedOut(downloading) => !downloading
    case Data(chunk) =>
      || (|Chunked(pre)| == 0 && |chunk| <= 1024 && !ParseRawPeerMsgLength(Shown(chunk)).Ok?)
      || exists n :: Completes(pre, chunk, n)
  }

  lemma EndsOrGoesOn(pre: seq<Arrival>, x: Arrival)
    requires Incomplete(pre) && AllDeliverable([x]) && !Ends(pre, x)
    ensures Incomplete(pre + [x])
  {
    DeliverableParts(pre, [x]);
    ChunkedAppend(pre, [x]);
    assert [x][0] == x && x in [x];
    if x.Data? {
      var chunks := Chunked(pre) + [x.bytes];
      assert Chunked([x]) == [x.bytes] && Chunked(pre + [x]) == chunks;
      if |Chunked(pre)| > 0 {
        assert chunks[0] == Chunked(pre)[0];
      }
      var n := ParseRawPeerMsgLength(Shown(chunks[0])).value;
      assert !Completes(pre, x.bytes, n);
    } else {
      assert Chunked([x]) == [] && Chunked(pre + [x]) == Chunked(pre);
    }
  }

  /** Every call ends in one of these ways: it waits for more until the connection is at its end, or there is a
      first arrival that ends it. */
  lemma {:induction false} EveryCallEnds(arrivals: seq<Arrival>) returns (pre: seq<Arrival>, others: seq<Arrival>)
    requires AllDeliverable(arrivals)
    ensures arrivals == pre + others && Incomplete(pre) && (|others| > 0 ==> Ends(pre, others[0]))
    decreases |arrivals|
  {
    if |arrivals| == 0 {
      pre, others := [], [];
    } else {
      var front, x := arrivals[..|arrivals| - 1], arrivals[|arrivals| - 1];
      assert arrivals == front + [x];
      DeliverableParts(front, [x]);
      pre, others := EveryCallEnds(front);
      if |others| > 0 || Ends(pre, x) {
        others := others + [x];
      } else {
        assert pre == front;
        EndsOrGoesOn(pre, x);
        pre := pre + [x];
      }
    }
  }
}
