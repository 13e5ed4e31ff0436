/** The chunkings for which the reader works are no others than full buffers and a remainder. */
module FramingLimits {
  import opened Wrappers
  import opened Bytes
  import opened PeerMessages
  import opened PeerMessageLaws
  import opened Framing

  /** Chunk sizes that a sequence of reads could deliver. */
  ghost predicate Sizes(sizes: seq<nat>, n: nat) {
    if |sizes| == 0 then n == 0
    else 0 < sizes[0] <= BUFFER_SIZE && sizes[0] <= n && Sizes(sizes[1..], n - sizes[0])
  }

  function FullSizes(n: nat): seq<nat> {
    if n <= BUFFER_SIZE then [n] else [BUFFER_SIZE] + FullSizes(n - BUFFER_SIZE)
  }

  ghost function Split(f: seq<byte>, sizes: seq<nat>): (chunks: seq<seq<byte>>)
    requires Sizes(sizes, |f|)
    ensures Deliverable(chunks) && |chunks| == |sizes|
  {
    if |sizes| == 0 then [] else [f[..sizes[0]]] + Split(f[sizes[0]..], sizes[1..])
  }

  /** Every well-formed message of length `n` is read back from chunks of these sizes, leaving nothing. */
  ghost predicate ReadsBack(n: nat, sizes: seq<nat>)
    requires Sizes(sizes, n)
  {
    forall m :: WellFormed(m) && |Encode(m).value| == n ==>
      ReadFrame(Split(Encode(m).value, sizes)) == Frame(Encode(m).value, [])
  }

  lemma {:induction false} FullSplitIsChunks(f: seq<byte>)
    requires |f| > 0
    ensures Sizes(FullSizes(|f|), |f|) && Split(f, FullSizes(|f|)) == Chunks(f, [])
    decreases |f|
  {
    var sizes := FullSizes(|f|);
    if |f| > BUFFER_SIZE {
      FullSplitIsChunks(f[BUFFER_SIZE..]);
      assert sizes[1..] == FullSizes(|f| - BUFFER_SIZE);
    } else {
      assert sizes[1..] == [];
      assert f[..|f|] == f == f + [];
    }
  }

  /** The collected bytes extend what was there and have the announced length. */
  lemma {:induction false} CollectExtends(buf: seq<byte>, n: nat, total: seq<byte>, chunks: seq<seq<byte>>)
    requires |buf| == BUFFER_SIZE && Deliverable(chunks) && n > 0
    requires Collect(buf, n, total, chunks).Frame?
    ensures total <= Collect(buf, n, total, chunks).bytes
    ensures |Collect(buf, n, total, chunks).bytes| == |total| + n
    decreases |chunks|
  {
    assert chunks == [chunks[0]] + chunks[1..];
    assert chunks[0] in chunks;
    CollectStep(buf, n, total, chunks[0], chunks[1..]);
    var buf' := Overlay(chunks[0], buf);
    if n > BUFFER_SIZE {
      CollectExtends(buf', n - BUFFER_SIZE, total + buf', chunks[1..]);
    }
  }

  // ---------- which messages can be read ----------

  /** The message, sent in full buffers and a remainder, comes out of the reader as it went in. */
  ghost predicate Readable(m: PeerMsg) {
    Encode(m).Ok? &&
    var f := Encode(m).value;
    && Deliverable(Chunks(f, []))
    && ReadFrame(Chunks(f, [])) == Frame(f, [])
    && Parse(f) == Ok(m)
  }

  /** A message of its builder's shape can be read exactly when its frame is within the reader's limit. */
  lemma ReadableIff(m: PeerMsg)
    requires Canonical(m)
    ensures Encode(m).Ok?
    ensures Readable(m) <==> |Encode(m).value| <= MAX_MSG_LENGTH
  {
    SelfDelimitingIff(m, []);
    RoundTripIffCanonical(m);
    var f := Encode(m).value;
    CanonicalIsNotEmpty(m);
    LastPartInBuffer(|f|);
    ChunksAreDeliverable(f, [], []);
    assert Chunks(f, []) + [] == Chunks(f, []);
    if |f| <= MAX_MSG_LENGTH {
      ReadsOneFrame(m, [], []);
    } else {
      assert f + [] == f;
      TooLongIsMisread(f);
    }
  }

  lemma CanonicalIsNotEmpty(m: PeerMsg)
    requires Canonical(m) && Encode(m).Ok?
    ensures |Encode(m).value| > 0
  {
  }

  lemma TooLongIsMisread(f: seq<byte>)
    requires |f| > BUFFER_SIZE && ParseRawPeerMsgLength(f) != Ok(|f|) && Deliverable(Chunks(f, []))
    ensures ReadFrame(Chunks(f, [])) != Frame(f, [])
  {
    var chunks, first := Chunks(f, []), f[..BUFFER_SIZE];
    LengthFromPrefix(f, BUFFER_SIZE);
    assert chunks[0] == first && Overlay(first, EmptyBuffer()) == first;
    if ParseRawPeerMsgLength(first).Ok? {
      var n := ParseRawPeerMsgLength(first).value;
      KnownLength(EmptyBuffer(), n, [], chunks);
      if ReadFrame(chunks).Frame? {
        CollectExtends(EmptyBuffer(), n, [], chunks);
      }
    }
  }

  // ---------- which chunks can be read ----------

  /** After a chunk shorter than the reader counts with, a stale byte of the buffer ends up in the frame. */
  lemma StaleByte(buf: seq<byte>, n: nat, total: seq<byte>, c: seq<byte>, rest: seq<seq<byte>>)
    requires |buf| == BUFFER_SIZE && Deliverable(rest) && 0 < |c| < BUFFER_SIZE && |c| < n
    ensures Deliverable([c] + rest)
    ensures Collect(buf, n, total, [c] + rest).Frame? ==>
      var bytes := Collect(buf, n, total, [c] + rest).bytes;
      |bytes| == |total| + n && bytes[|total| + |c|] == buf[|c|]
  {
    CollectStep(buf, n, total, c, rest);
    var buf' := Overlay(c, buf);
    assert buf'[|c|] == buf[|c|];
    if n > BUFFER_SIZE && Collect(buf', n - BUFFER_SIZE, total + buf', rest).Frame? {
      CollectExtends(buf', n - BUFFER_SIZE, total + buf', rest);
      assert (total + buf')[|total| + |c|] == buf[|c|];
    }
  }

  /** No two bytes of `f` that are a buffer's length apart are equal. */
  ghost predicate BuffersDiffer(f: seq<byte>) {
    forall i :: BUFFER_SIZE <= i < |f| ==> f[i] != f[i - BUFFER_SIZE]
  }

  lemma SplitFirst(f: seq<byte>, sizes: seq<nat>)
    requires Sizes(sizes, |f|) && |f| > 0
    ensures |sizes| > 0 && 0 < sizes[0] <= BUFFER_SIZE && sizes[0] <= |f| && sizes == [sizes[0]] + sizes[1..]
    ensures Split(f, sizes) == [f[..sizes[0]]] + Split(f[sizes[0]..], sizes[1..])
  {
  }

  lemma SplitAt(f: seq<byte>, x: nat, sizes: seq<nat>)
    requires x < |f| && Sizes(sizes, |f| - x)
    ensures |sizes| > 0 && 0 < sizes[0] <= |f| - x
    ensures Sizes(sizes[1..], |f| - x - sizes[0])
    ensures Split(f[x..], sizes) == [f[x..x + sizes[0]]] + Split(f[x + sizes[0]..], sizes[1..])
  {
    SplitFirst(f[x..], sizes);
    assert f[x..][..sizes[0]] == f[x..x + sizes[0]] && f[x..][sizes[0]..] == f[x + sizes[0]..];
  }

  lemma StaleByteShows(f: seq<byte>, x: nat, c: seq<byte>, rest: seq<seq<byte>>)
    requires BUFFER_SIZE <= x < |f| && BuffersDiffer(f) && Deliverable(rest)
    requires 0 < |c| < BUFFER_SIZE && |c| < |f| - x
    ensures Deliverable([c] + rest)
    ensures Collect(f[x - BUFFER_SIZE..x], |f| - x, f[..x], [c] + rest) != Frame(f, [])
  {
    var buf := f[x - BUFFER_SIZE..x];
    StaleByte(buf, |f| - x, f[..x], c, rest);
    assert buf[|c|] == f[x + |c| - BUFFER_SIZE];
    assert f[x + |c|] != f[x + |c| - BUFFER_SIZE];
  }

  lemma FullStep(f: seq<byte>, x: nat, rest: seq<seq<byte>>)
    requires BUFFER_SIZE <= x && x + BUFFER_SIZE < |f| && Deliverable(rest)
    ensures var y := x + BUFFER_SIZE;
      && Deliverable([f[x..y]] + rest)
      && Collect(f[x - BUFFER_SIZE..x], |f| - x, f[..x], [f[x..y]] + rest) == Collect(f[x..y], |f| - y, f[..y], rest)
  {
    var y := x + BUFFER_SIZE;
    CollectStep(f[x - BUFFER_SIZE..x], |f| - x, f[..x], f[x..y], rest);
    assert Overlay(f[x..y], f[x - BUFFER_SIZE..x]) == f[x..y];
    assert f[..x] + f[x..y] == f[..y];
  }

  /** The reader has taken `x` bytes of `f` in full buffers, the last of which is still in its buffer; from
      the chunks to come it does not recover `f` without leaving anything. */
  ghost predicate Misses(f: seq<byte>, x: nat, chunks: seq<seq<byte>>)
    requires BUFFER_SIZE <= x < |f| && Deliverable(chunks)
  {
    Collect(f[x - BUFFER_SIZE..x], |f| - x, f[..x], chunks) != Frame(f, [])
  }

  lemma ShortChunkMisses(f: seq<byte>, x: nat, c: seq<byte>, rest: seq<seq<byte>>, chunks: seq<seq<byte>>)
    requires BUFFER_SIZE <= x < |f| && BuffersDiffer(f) && Deliverable(rest) && Deliverable(chunks)
    requires 0 < |c| < BUFFER_SIZE && |c| < |f| - x && chunks == [c] + rest
    ensures Misses(f, x, chunks)
  {
    StaleByteShows(f, x, c, rest);
  }

  lemma FullChunkMisses(f: seq<byte>, x: nat, rest: seq<seq<byte>>, chunks: seq<seq<byte>>)
    requires BUFFER_SIZE <= x && x + BUFFER_SIZE < |f| && Deliverable(rest) && Deliverable(chunks)
    requires chunks == [f[x..x + BUFFER_SIZE]] + rest && Misses(f, x + BUFFER_SIZE, rest)
    ensures Misses(f, x, chunks)
  {
    FullStep(f, x, rest);
  }

  /** If the sizes of the chunks to come are not full ones, the message is missed. */
  lemma {:induction false} WrongSizesMiss(f: seq<byte>, x: nat, sizes: seq<nat>, chunks: seq<seq<byte>>)
    requires BUFFER_SIZE <= x < |f| && BuffersDiffer(f)
    requires Sizes(sizes, |f| - x) && sizes != FullSizes(|f| - x) && chunks == Split(f[x..], sizes)
    ensures Misses(f, x, chunks)
    decreases |f| - x
  {
    FirstDeviation(sizes, |f| - x);
    SplitAt(f, x, sizes);
    var y := x + sizes[0];
    var rest := Split(f[y..], sizes[1..]);
    if sizes[0] < BUFFER_SIZE {
      ShortChunkMisses(f, x, f[x..y], rest, chunks);
    } else {
      WrongSizesMiss(f, y, sizes[1..], rest);
      FullChunkMisses(f, x, rest, chunks);
    }
  }

  /** Sizes that are not full ones fall short at once, or fill a buffer and are not full ones after that. */
  lemma FirstDeviation(sizes: seq<nat>, n: nat)
    requires n > 0 && Sizes(sizes, n) && sizes != FullSizes(n)
    ensures |sizes| > 0 && sizes[0] <= BUFFER_SIZE
    ensures if sizes[0] < BUFFER_SIZE then sizes[0] < n
            else n > BUFFER_SIZE && Sizes(sizes[1..], n - BUFFER_SIZE) && sizes[1..] != FullSizes(n - BUFFER_SIZE)
  {
    assert sizes == [sizes[0]] + sizes[1..];
  }

  // ---------- a message that betrays every other chunking ----------

  const BITFIELD_ID: byte := Id(Kind.Bitfield)

  function WitnessBase(n: nat): (b: nat)
    ensures 100 <= b <= 150 && b + 1 != n % 256
  {
    if n % 256 == 101 then 150 else 100
  }

  /** A BITFIELD payload whose bytes change from buffer to buffer and avoid those of its header. */
  function WitnessPayload(n: nat): (p: seq<byte>)
    requires 5 <= n <= MAX_MSG_LENGTH
    ensures |p| == n - 5
  {
    seq(n - 5, i requires 0 <= i < n - 5 => (WitnessBase(n - 4) + (i + 5) / BUFFER_SIZE) as byte)
  }

  function Witness(n: nat): PeerMsg
    requires 5 <= n <= MAX_MSG_LENGTH
  {
    PeerMsg(Kind.Bitfield, WitnessPayload(n))
  }

  lemma WitnessBytes(n: nat)
    requires 5 <= n <= MAX_MSG_LENGTH
    ensures WellFormed(Witness(n)) && |Encode(Witness(n)).value| == n
    ensures var f := Encode(Witness(n)).value;
      && f[0] == 0 && f[1] == 0 && f[2] as int <= 64 && f[3] as int == (n - 4) % 256 && f[4] == BITFIELD_ID
      && Uint32(f) == n - 4
      && forall i :: 5 <= i < n ==> f[i] as int == WitnessBase(n - 4) + i / BUFFER_SIZE
  {
    var p, f := WitnessPayload(n), Encode(Witness(n)).value;
    Uint32OfPut(n - 4, [BITFIELD_ID] + p);
    assert f == PutUint32(n - 4) + ([BITFIELD_ID] + p);
    assert f[5..] == p;
    forall i | 5 <= i < n
      ensures f[i] as int == WitnessBase(n - 4) + i / BUFFER_SIZE
    {
      assert f[i] == p[i - 5];
    }
  }

  lemma WitnessVaries(n: nat)
    requires 5 <= n <= MAX_MSG_LENGTH
    ensures WellFormed(Witness(n)) && BuffersDiffer(Encode(Witness(n)).value)
  {
    WitnessBytes(n);
    var f := Encode(Witness(n)).value;
    forall i | BUFFER_SIZE <= i < n
      ensures f[i] != f[i - BUFFER_SIZE]
    {
      assert i / BUFFER_SIZE == (i - BUFFER_SIZE) / BUFFER_SIZE + 1;
    }
  }

  /** A first read that neither fills the buffer nor ends the message. */
  lemma ShortFirstRead(f: seq<byte>, c: seq<byte>, rest: seq<seq<byte>>)
    requires |f| >= 5 && f[0] == 0 && f[4] == BITFIELD_ID && forall i :: 5 <= i < |f| ==> f[i] != 0
    requires 0 < |c| < BUFFER_SIZE && |c| < |f| && c == f[..|c|] && Deliverable(rest)
    ensures Deliverable([c] + rest) && ReadFrame([c] + rest) != Frame(f, [])
  {
    var chunks := [c] + rest;
    assert chunks[0] == c && chunks[1..] == rest;
    var buf' := Overlay(c, EmptyBuffer());
    assert buf'[0] == 0 && !IsPeerHandshakeMsg(buf');
    if ParseRawPeerMsgLength(buf').Ok? {
      var n := ParseRawPeerMsgLength(buf').value;
      KnownLength(EmptyBuffer(), n, [], chunks);
      ZerosAfter(n, c, rest);
      var i := if |c| < 5 then 4 else |c|;
      assert f[i] != 0;
    }
  }

  /** The bytes that the first read does not deliver come out as zeros. */
  lemma ZerosAfter(n: nat, c: seq<byte>, rest: seq<seq<byte>>)
    requires n > 0 && 0 < |c| < BUFFER_SIZE && Deliverable(rest)
    ensures Deliverable([c] + rest)
    ensures Collect(EmptyBuffer(), n, [], [c] + rest).Frame? ==>
      var bytes := Collect(EmptyBuffer(), n, [], [c] + rest).bytes;
      |bytes| == n && forall i :: |c| <= i < n && i < BUFFER_SIZE ==> bytes[i] == 0
  {
    CollectStep(EmptyBuffer(), n, [], c, rest);
    var buf' := Overlay(c, EmptyBuffer());
    assert forall i :: |c| <= i < BUFFER_SIZE ==> buf'[i] == 0;
    if n > BUFFER_SIZE && Collect(buf', n - BUFFER_SIZE, [] + buf', rest).Frame? {
      CollectExtends(buf', n - BUFFER_SIZE, [] + buf', rest);
    }
  }

  // ---------- the condition ----------

  lemma FullSizesRead(n: nat, sizes: seq<nat>)
    requires n >= 4 && sizes == FullSizes(n) && Sizes(sizes, n)
    ensures ReadsBack(n, sizes)
  {
    forall m | WellFormed(m) && |Encode(m).value| == n
      ensures ReadFrame(Split(Encode(m).value, sizes)) == Frame(Encode(m).value, [])
    {
      FullSplitIsChunks(Encode(m).value);
      LastPartInBuffer(n);
      ReadsOneFrame(m, [], []);
      assert Chunks(Encode(m).value, []) + [] == Chunks(Encode(m).value, []);
    }
  }

  lemma ZeroLength(c: seq<byte>)
    requires |c| < 4 && forall i :: 0 <= i < |c| ==> c[i] == 0
    ensures ParseRawPeerMsgLength(Overlay(c, EmptyBuffer())) == Ok(4)
  {
    var buf' := Overlay(c, EmptyBuffer());
    assert buf'[0] == 0 && buf'[1] == 0 && buf'[2] == 0 && buf'[3] == 0;
  }

  lemma KeepAliveFrame()
    ensures WellFormed(PeerMsg(KeepAlive, [])) && Encode(PeerMsg(KeepAlive, [])) == Ok([0, 0, 0, 0])
  {
  }

  lemma KeepAliveCut(c: seq<byte>, rest: seq<seq<byte>>, chunks: seq<seq<byte>>)
    requires 0 < |c| < 4 && (forall i :: 0 <= i < |c| ==> c[i] == 0) && |rest| > 0
    requires Deliverable(rest) && Deliverable(chunks) && chunks == [c] + rest
    ensures ReadFrame(chunks) != Frame([0, 0, 0, 0], [])
  {
    ZeroLength(c);
    assert chunks[0] == c;
    KnownLength(EmptyBuffer(), 4, [], chunks);
    CollectStep(EmptyBuffer(), 4, [], c, rest);
  }

  lemma KeepAliveInParts(sizes: seq<nat>)
    requires Sizes(sizes, 4) && sizes != FullSizes(4)
    ensures !ReadsBack(4, sizes)
  {
    var m, f: seq<byte> := PeerMsg(KeepAlive, []), [0, 0, 0, 0];
    SplitFirst(f, sizes);
    FirstDeviation(sizes, 4);
    KeepAliveCut(f[..sizes[0]], Split(f[sizes[0]..], sizes[1..]), Split(f, sizes));
    KeepAliveFrame();
    assert ReadFrame(Split(Encode(m).value, sizes)) != Frame(Encode(m).value, []);
  }

  /** A first read that fills the buffer, before chunks of other sizes. */
  lemma FullFirstRead(m: PeerMsg, c: seq<byte>, sizes: seq<nat>)
    requires WellFormed(m) && |Encode(m).value| > BUFFER_SIZE && BuffersDiffer(Encode(m).value)
    requires c == Encode(m).value[..BUFFER_SIZE]
    requires Sizes(sizes, |Encode(m).value| - BUFFER_SIZE) && sizes != FullSizes(|Encode(m).value| - BUFFER_SIZE)
    ensures Deliverable([c] + Split(Encode(m).value[BUFFER_SIZE..], sizes))
    ensures ReadFrame([c] + Split(Encode(m).value[BUFFER_SIZE..], sizes)) != Frame(Encode(m).value, [])
  {
    var f := Encode(m).value;
    var rest := Split(f[BUFFER_SIZE..], sizes);
    LastPartInBuffer(|f|);
    FirstReadShowsLength(m, [], EmptyBuffer());
    assert Overlay(c, EmptyBuffer()) == c && [] + c == c;
    CollectStep(EmptyBuffer(), |f|, [], c, rest);
    assert ([c] + rest)[0] == c;
    KnownLength(EmptyBuffer(), |f|, [], [c] + rest);
    assert f[0..BUFFER_SIZE] == c;
    WrongSizesMiss(f, BUFFER_SIZE, sizes, rest);
  }

  lemma OtherSizesFail(m: PeerMsg, sizes: seq<nat>)
    requires WellFormed(m) && BuffersDiffer(Encode(m).value)
    requires var f := Encode(m).value;
      |f| >= 5 && f[0] == 0 && f[4] == BITFIELD_ID && forall i :: 5 <= i < |f| ==> f[i] != 0
    requires Sizes(sizes, |Encode(m).value|) && sizes != FullSizes(|Encode(m).value|)
    ensures ReadFrame(Split(Encode(m).value, sizes)) != Frame(Encode(m).value, [])
  {
    var f := Encode(m).value;
    SplitFirst(f, sizes);
    FirstDeviation(sizes, |f|);
    if sizes[0] < BUFFER_SIZE {
      ShortFirstRead(f, f[..sizes[0]], Split(f[sizes[0]..], sizes[1..]));
    } else {
      FullFirstRead(m, f[..BUFFER_SIZE], sizes[1..]);
    }
  }

  lemma WitnessInParts(n: nat, sizes: seq<nat>)
    requires 5 <= n <= MAX_MSG_LENGTH && Sizes(sizes, n) && sizes != FullSizes(n)
    ensures WellFormed(Witness(n)) && |Encode(Witness(n)).value| == n
    ensures ReadFrame(Split(Encode(Witness(n)).value, sizes)) != Frame(Encode(Witness(n)).value, [])
  {
    WitnessBytes(n);
    WitnessVaries(n);
    WitnessIsNotZero(n);
    OtherSizesFail(Witness(n), sizes);
  }

  lemma WitnessIsNotZero(n: nat)
    requires 5 <= n <= MAX_MSG_LENGTH
    ensures WellFormed(Witness(n))
    ensures forall i :: 5 <= i < |Encode(Witness(n)).value| ==> Encode(Witness(n)).value[i] != 0
  {
    WitnessBytes(n);
  }

  /** For every message length: all messages of that length are read back from chunks of the given sizes
      exactly when each chunk but the last fills the buffer. */
  lemma ReadsBackIffFull(n: nat, sizes: seq<nat>)
    requires 4 <= n <= MAX_MSG_LENGTH && Sizes(sizes, n)
    ensures ReadsBack(n, sizes) <==> sizes == FullSizes(n)
  {
    if sizes == FullSizes(n) {
      FullSizesRead(n, sizes);
    } else if n == 4 {
      KeepAliveInParts(sizes);
    } else {
      WitnessInParts(n, sizes);
    }
  }
}
