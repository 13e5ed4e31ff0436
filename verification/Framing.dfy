/** Reading messages off a connection, chunk by chunk. */
module Framing {
  import opened Wrappers
  import opened Bytes
  import opened PeerMessages
  import opened PeerMessageLaws

  const BUFFER_SIZE := 1024

  /** What one read comes back with: bytes, a time-out, the news that the peer has reset the connection, or some
      other fault, which may be neither bytes nor an error.  Whether the client was downloading when a read timed
      out decides what becomes of it. */
  datatype Arrival = Data(bytes: seq<byte>) | TimedOut(downloading: bool) | Reset | Fault

  /** The incoming half of a connection: what its next reads will come back with.  After the last of them the
      connection is at its end. */
  class Socket {
    var arrivals: seq<Arrival>

    ghost predicate Valid()
      reads this
    {
      AllDeliverable(arrivals)
    }

    /** One `Read`: the next bytes land at the start of the buffer, the rest of the buffer is untouched. */
    method Read(buf: array<byte>) returns (a: Option<Arrival>)
      requires Valid() && buf.Length == BUFFER_SIZE
      modifies this, buf
      ensures Valid()
      ensures if |old(arrivals)| == 0 then a == None && arrivals == []
              else a == Some(old(arrivals)[0]) && arrivals == old(arrivals)[1..]
      ensures if a.Some? && a.value.Data?
              then |a.value.bytes| <= BUFFER_SIZE && buf[..] == Overlay(a.value.bytes, old(buf[..]))
              else buf[..] == old(buf[..])
    {
      if |arrivals| == 0 {
        return None;
      }
      var arrival := arrivals[0];
      assert arrival in arrivals;
      arrivals := arrivals[1..];
      if arrival.Data? {
        var chunk := arrival.bytes;
        forall i | 0 <= i < |chunk| {
          buf[i] := chunk[i];
        }
      }
      return Some(arrival);
    }
  }

  ghost predicate AllDeliverable(arrivals: seq<Arrival>) {
    forall a :: a in arrivals && a.Data? ==> 0 < |a.bytes| <= BUFFER_SIZE
  }

  ghost predicate Deliverable(chunks: seq<seq<byte>>) {
    forall c :: c in chunks ==> 0 < |c| <= BUFFER_SIZE
  }

  function Overlay(chunk: seq<byte>, buf: seq<byte>): seq<byte>
    requires |chunk| <= |buf|
  {
    chunk + buf[|chunk|..]
  }

  function Min(a: int, b: int): int { if a < b then a else b }

  /** A completed frame and the chunks that are still to come, or an error. */
  datatype Reading = Frame(bytes: seq<byte>, rest: seq<seq<byte>>) | Failed(error: string)

  /** The reassembly loop with `remaining` bytes of the frame outstanding (zero before the length is
      known), `total` already collected and `buf` holding what the last read left there. */
  ghost function Collect(buf: seq<byte>, remaining: nat, total: seq<byte>, chunks: seq<seq<byte>>): Reading
    requires |buf| == BUFFER_SIZE && Deliverable(chunks)
    decreases |chunks|
  {
    if |chunks| == 0 then Failed("ERR_PEER_LISTEN_EOF")
    else
      assert chunks[0] in chunks;
      var buf' := Overlay(chunks[0], buf);
      if remaining == 0 && !ParseRawPeerMsgLength(buf').Ok? then Failed("ERR_PEER_LISTEN")
      else
        var outstanding := if remaining == 0 then ParseRawPeerMsgLength(buf').value else remaining;
        var take := Min(BUFFER_SIZE, outstanding);
        if outstanding - take > 0
        then Collect(buf', outstanding - take, total + buf'[..take], chunks[1..])
        else Frame(total + buf'[..take], chunks[1..])
  }

  function EmptyBuffer(): (r: seq<byte>)
    ensures |r| == BUFFER_SIZE
  {
    seq(BUFFER_SIZE, _ => 0)
  }

  /** What one call of `ReadPeerMsg` makes of the chunks to come. */
  ghost function ReadFrame(chunks: seq<seq<byte>>): Reading
    requires Deliverable(chunks)
  {
    Collect(EmptyBuffer(), 0, [], chunks)
  }

  /** A completed frame and what is still to come, or an error. */
  datatype TimedReading = Received(bytes: seq<byte>, rest: seq<Arrival>) | Broken(error: string)

  /** The reassembly loop over everything that reads come back with: a time-out is ignored while the client is
      downloading and ends the call otherwise. */
  ghost function CollectTimed(buf: seq<byte>, remaining: nat, total: seq<byte>, arrivals: seq<Arrival>): TimedReading
    requires |buf| == BUFFER_SIZE && AllDeliverable(arrivals)
    decreases |arrivals|
  {
    if |arrivals| == 0 then Broken("ERR_PEER_LISTEN_EOF")
    else
      assert arrivals[0] in arrivals;
      match arrivals[0]
      case Reset => Broken("ERR_PEER_LISTEN_RESET")
      case Fault => Broken("ERR_PEER_LISTEN")
      case TimedOut(downloading) =>
        if downloading then CollectTimed(buf, remaining, total, arrivals[1..]) else Broken("ERR_PEER_LISTEN_TIMEOUT")
      case Data(chunk) =>
        var buf' := Overlay(chunk, buf);
        if remaining == 0 && !ParseRawPeerMsgLength(buf').Ok? then Broken("ERR_PEER_LISTEN")
        else
          var outstanding := if remaining == 0 then ParseRawPeerMsgLength(buf').value else remaining;
          var take := Min(BUFFER_SIZE, outstanding);
          if outstanding - take > 0
          then CollectTimed(buf', outstanding - take, total + buf'[..take], arrivals[1..])
          else Received(total + buf'[..take], arrivals[1..])
  }

  /** `ReadPeerMsg`. */
  method ReadPeerMsg(conn: Socket) returns (r: Result<PeerMsg>)
    requires conn.Valid()
    modifies conn
    ensures conn.Valid()
    ensures match CollectTimed(EmptyBuffer(), 0, [], old(conn.arrivals))
            case Received(bytes, rest) => r == Parse(bytes) && conn.arrivals == rest
            case Broken(e) => r == Err(e)
  {
    var totalBuff: seq<byte> := [];
    var msgBuf := new byte[BUFFER_SIZE](_ => 0);
    var remainingMsgLen := 0;
    assert msgBuf[..] == EmptyBuffer();
    while true
      invariant conn.Valid() && remainingMsgLen >= 0
      invariant CollectTimed(EmptyBuffer(), 0, [], old(conn.arrivals))
             == CollectTimed(msgBuf[..], remainingMsgLen, totalBuff, conn.arrivals)
      decreases |conn.arrivals|
    {
      var arrival := conn.Read(msgBuf);
      if arrival.None? {
        return Err("ERR_PEER_LISTEN_EOF");
      }
      if arrival.value.TimedOut? {
        if arrival.value.downloading {
          continue;
        }
        return Err("ERR_PEER_LISTEN_TIMEOUT");
      }
      if arrival.value.Reset? {
        return Err("ERR_PEER_LISTEN_RESET");
      }
      if arrival.value.Fault? {
        return Err("ERR_PEER_LISTEN");
      }
      if remainingMsgLen == 0 {
        var length := ParseRawPeerMsgLength(msgBuf[..]);
        if !length.Ok? {
          return Err("ERR_PEER_LISTEN");
        }
        remainingMsgLen := length.value;
      }
      var readLength := Min(msgBuf.Length, remainingMsgLen);
      remainingMsgLen := remainingMsgLen - readLength;
      totalBuff := totalBuff + msgBuf[..][..readLength];
      if remainingMsgLen > 0 {
        continue;
      }
      return Parse(totalBuff);
    }
  }

  /** The bytes among what reads come back with. */
  function Chunked(arrivals: seq<Arrival>): seq<seq<byte>> {
    if |arrivals| == 0 then []
    else (if arrivals[0].Data? then [arrivals[0].bytes] else []) + Chunked(arrivals[1..])
  }

  /** Every time-out falls into a download, and the peer does not reset the connection. */
  ghost predicate Undisturbed(arrivals: seq<Arrival>) {
    forall a :: a in arrivals ==> a.Data? || (a.TimedOut? && a.downloading)
  }

  lemma {:induction false} ChunkedIsDeliverable(arrivals: seq<Arrival>)
    requires AllDeliverable(arrivals)
    ensures Deliverable(Chunked(arrivals))
  {
    if |arrivals| > 0 {
      assert arrivals[0] in arrivals;
      ChunkedIsDeliverable(arrivals[1..]);
    }
  }

  /** The two readings come to the same, and leave the same bytes. */
  ghost predicate SameReading(timed: TimedReading, plain: Reading) {
    match plain
    case Failed(e) => timed == Broken(e)
    case Frame(bytes, rest) => timed.Received? && timed.bytes == bytes && Chunked(timed.rest) == rest
  }

  /** Time-outs during a download leave no trace: the call comes to what it would have come to without them.
      So all that follows is stated about the bytes alone. */
  lemma {:induction false} TimeoutsLeaveNoTrace(buf: seq<byte>, remaining: nat, total: seq<byte>,
                                                 arrivals: seq<Arrival>)
    requires |buf| == BUFFER_SIZE && AllDeliverable(arrivals) && Undisturbed(arrivals)
    ensures Deliverable(Chunked(arrivals))
    ensures SameReading(CollectTimed(buf, remaining, total, arrivals),
                        Collect(buf, remaining, total, Chunked(arrivals)))
    decreases |arrivals|
  {
    ChunkedIsDeliverable(arrivals);
    if |arrivals| > 0 {
      var a, others := arrivals[0], arrivals[1..];
      assert a in arrivals && forall x :: x in others ==> x in arrivals;
      if a.TimedOut? {
        TimeoutsLeaveNoTrace(buf, remaining, total, others);
        assert Chunked(arrivals) == Chunked(others);
      } else {
        assert Chunked(arrivals)[0] == a.bytes && Chunked(arrivals)[1..] == Chunked(others);
        var buf' := Overlay(a.bytes, buf);
        if remaining > 0 || ParseRawPeerMsgLength(buf').Ok? {
          var outstanding := if remaining == 0 then ParseRawPeerMsgLength(buf').value else remaining;
          if outstanding > BUFFER_SIZE {
            TimeoutsLeaveNoTrace(buf', outstanding - BUFFER_SIZE, total + buf'[..BUFFER_SIZE], others);
          }
        }
      }
    }
  }

  // ---------- the chunking under which framing works ----------

  /** A frame cut into full buffers and a remainder, with bytes `extra` of whatever follows it on the wire
      arriving in the same read as its last part. */
  function Chunks(f: seq<byte>, extra: seq<byte>): (r: seq<seq<byte>>)
    ensures |r| > 0
  {
    if |f| <= BUFFER_SIZE then [f + extra] else [f[..BUFFER_SIZE]] + Chunks(f[BUFFER_SIZE..], extra)
  }

  /** The length of the last part of a frame. */
  function LastPart(n: nat): nat {
    if n <= BUFFER_SIZE then n else LastPart(n - BUFFER_SIZE)
  }

  lemma {:induction false} ChunksAreDeliverable(f: seq<byte>, extra: seq<byte>, rest: seq<seq<byte>>)
    requires |f| > 0 && LastPart(|f|) + |extra| <= BUFFER_SIZE && Deliverable(rest)
    ensures Deliverable(Chunks(f, extra) + rest)
    decreases |f|
  {
    if |f| > BUFFER_SIZE {
      var tail := f[BUFFER_SIZE..];
      ChunksAreDeliverable(tail, extra, rest);
      assert Chunks(f, extra) + rest == [f[..BUFFER_SIZE]] + (Chunks(tail, extra) + rest);
    }
  }

  /** One round of the loop once the length is known. */
  lemma CollectStep(buf: seq<byte>, n: nat, total: seq<byte>, c: seq<byte>, rest: seq<seq<byte>>)
    requires |buf| == BUFFER_SIZE && n > 0 && 0 < |c| <= BUFFER_SIZE && Deliverable(rest)
    ensures Deliverable([c] + rest)
    ensures var buf' := Overlay(c, buf);
      Collect(buf, n, total, [c] + rest)
      == if n > BUFFER_SIZE then Collect(buf', n - BUFFER_SIZE, total + buf', rest)
         else Frame(total + buf'[..n], rest)
  {
    var chunks, buf' := [c] + rest, Overlay(c, buf);
    assert chunks[0] == c && chunks[1..] == rest;
    assert buf'[..BUFFER_SIZE] == buf';
  }

  lemma {:induction false} CollectsRemainder(buf: seq<byte>, total: seq<byte>, f: seq<byte>, extra: seq<byte>,
                                             rest: seq<seq<byte>>)
    requires |buf| == BUFFER_SIZE && |f| > 0 && LastPart(|f|) + |extra| <= BUFFER_SIZE && Deliverable(rest)
    ensures Deliverable(Chunks(f, extra) + rest)
    ensures Collect(buf, |f|, total, Chunks(f, extra) + rest) == Frame(total + f, rest)
    decreases |f|
  {
    ChunksAreDeliverable(f, extra, rest);
    if |f| <= BUFFER_SIZE {
      CollectStep(buf, |f|, total, f + extra, rest);
      assert Overlay(f + extra, buf)[..|f|] == f;
    } else {
      var head, tail := f[..BUFFER_SIZE], f[BUFFER_SIZE..];
      ChunksAreDeliverable(tail, extra, rest);
      CollectStep(buf, |f|, total, head, Chunks(tail, extra) + rest);
      assert Chunks(f, extra) + rest == [head] + (Chunks(tail, extra) + rest);
      assert Overlay(head, buf) == head;
      CollectsRemainder(head, total + head, tail, extra, rest);
      assert total + head + tail == total + f;
    }
  }

  lemma LengthFromPrefix(f: seq<byte>, n: nat)
    requires 20 <= n <= |f|
    ensures ParseRawPeerMsgLength(f[..n]) == ParseRawPeerMsgLength(f)
  {
    assert f[..n][1..20] == f[1..20];
  }

  /** The first read of a frame shows its length, whatever the buffer held before. */
  lemma FirstReadShowsLength(m: PeerMsg, extra: seq<byte>, buf: seq<byte>)
    requires WellFormed(m) && |buf| == BUFFER_SIZE
    requires LastPart(|Encode(m).value|) + |extra| <= BUFFER_SIZE
    ensures var first := Chunks(Encode(m).value, extra)[0];
      |first| <= BUFFER_SIZE && ParseRawPeerMsgLength(Overlay(first, buf)) == Ok(|Encode(m).value|)
  {
    var f := Encode(m).value;
    var first := Chunks(f, extra)[0];
    if |f| <= BUFFER_SIZE {
      var s := extra + buf[|first|..];
      SelfDelimitingIff(m, s);
      assert Overlay(first, buf) == f + s;
    } else {
      SelfDelimitingIff(m, []);
      assert f + [] == f;
      LengthFromPrefix(f, BUFFER_SIZE);
      assert Overlay(first, buf) == f[..BUFFER_SIZE];
    }
  }

  lemma KnownLength(buf: seq<byte>, n: nat, total: seq<byte>, chunks: seq<seq<byte>>)
    requires |buf| == BUFFER_SIZE && Deliverable(chunks) && |chunks| > 0 && n > 0
    requires |chunks[0]| <= BUFFER_SIZE && ParseRawPeerMsgLength(Overlay(chunks[0], buf)) == Ok(n)
    ensures Collect(buf, 0, total, chunks) == Collect(buf, n, total, chunks)
  {
  }

  lemma ReadsAnnouncedFrame(f: seq<byte>, extra: seq<byte>, rest: seq<seq<byte>>)
    requires |f| > 0 && LastPart(|f|) + |extra| <= BUFFER_SIZE && Deliverable(rest)
    requires var first := Chunks(f, extra)[0];
      |first| <= BUFFER_SIZE && ParseRawPeerMsgLength(Overlay(first, EmptyBuffer())) == Ok(|f|)
    ensures Deliverable(Chunks(f, extra) + rest)
    ensures ReadFrame(Chunks(f, extra) + rest) == Frame(f, rest)
  {
    var chunks := Chunks(f, extra) + rest;
    ChunksAreDeliverable(f, extra, rest);
    assert chunks[0] == Chunks(f, extra)[0];
    KnownLength(EmptyBuffer(), |f|, [], chunks);
    CollectsRemainder(EmptyBuffer(), [], f, extra, rest);
    assert [] + f == f;
  }

  /** One call reads one well-formed message when each read delivers a full buffer or the end of the
      message.  Bytes of the next message that arrive together with that end are dropped: the outcome does
      not depend on them and they are not among the chunks left to read. */
  lemma ReadsOneFrame(m: PeerMsg, extra: seq<byte>, rest: seq<seq<byte>>)
    requires WellFormed(m) && Deliverable(rest)
    requires LastPart(|Encode(m).value|) + |extra| <= BUFFER_SIZE
    ensures Deliverable(Chunks(Encode(m).value, extra) + rest)
    ensures ReadFrame(Chunks(Encode(m).value, extra) + rest) == Frame(Encode(m).value, rest)
  {
    FramesAreNotEmpty(m);
    FirstReadShowsLength(m, extra, EmptyBuffer());
    ReadsAnnouncedFrame(Encode(m).value, extra, rest);
  }

  // ---------- whole streams ----------

  /** `n` calls of `ReadPeerMsg` in a row: the messages, or nothing if one of the calls fails. */
  ghost function ReadMany(n: nat, chunks: seq<seq<byte>>): Option<(seq<PeerMsg>, seq<seq<byte>>)>
    requires Deliverable(chunks)
  {
    if n == 0 then Some(([], chunks))
    else match ReadFrame(chunks)
         case Failed(_) => None
         case Frame(bytes, rest) =>
           if Parse(bytes).Ok? && Deliverable(rest) then
             match ReadMany(n - 1, rest)
             case None => None
             case Some((ms, last)) => Some(([Parse(bytes).value] + ms, last))
           else None
  }

  /** The chunks of a sequence of messages, each message in reads of its own. */
  ghost function StreamChunks(ms: seq<PeerMsg>): seq<seq<byte>>
    requires AllWellFormed(ms)
  {
    if |ms| == 0 then []
    else assert ms[0] in ms; Chunks(Encode(ms[0]).value, []) + StreamChunks(ms[1..])
  }

  lemma {:induction false} LastPartInBuffer(n: nat)
    requires n > 0
    ensures 0 < LastPart(n) <= BUFFER_SIZE
  {
    if n > BUFFER_SIZE {
      LastPartInBuffer(n - BUFFER_SIZE);
    }
  }

  lemma {:induction false} ChunksConcatenate(f: seq<byte>)
    ensures Flatten(Chunks(f, [])) == f
    decreases |f|
  {
    if |f| > BUFFER_SIZE {
      ChunksConcatenate(f[BUFFER_SIZE..]);
    } else {
      assert f + [] == f;
    }
  }

  function Flatten(chunks: seq<seq<byte>>): seq<byte> {
    if |chunks| == 0 then [] else chunks[0] + Flatten(chunks[1..])
  }

  lemma AppendAssociates(a: seq<byte>, b: seq<byte>, c: seq<byte>)
    ensures a + (b + c) == a + b + c
  {
  }

  lemma {:induction false} FlattenConcatenates(a: seq<seq<byte>>, b: seq<seq<byte>>)
    ensures Flatten(a + b) == Flatten(a) + Flatten(b)
  {
    if |a| == 0 {
      assert a + b == b;
    } else {
      FlattenConcatenates(a[1..], b);
      assert (a + b)[1..] == a[1..] + b;
      AppendAssociates(a[0], Flatten(a[1..]), Flatten(b));
    }
  }

  /** Framing: every sequence of well-formed messages, put on the wire one after the other and delivered in
      these chunks, is read back as that sequence and nothing is left over. */
  lemma {:induction false} StreamIsReadBack(ms: seq<PeerMsg>)
    requires AllWellFormed(ms)
    ensures Deliverable(StreamChunks(ms)) && Flatten(StreamChunks(ms)) == Stream(ms)
    ensures ReadMany(|ms|, StreamChunks(ms)) == Some((ms, []))
  {
    if |ms| > 0 {
      var m, rest := ms[0], ms[1..];
      assert m in ms;
      StreamIsReadBack(rest);
      FramesAreNotEmpty(m);
      LastPartInBuffer(|Encode(m).value|);
      ReadsOneFrame(m, [], StreamChunks(rest));
      RoundTripIffCanonical(m);
      FlattenConcatenates(Chunks(Encode(m).value, []), StreamChunks(rest));
      ChunksConcatenate(Encode(m).value);
      assert [m] + rest == ms;
    }
  }
}
