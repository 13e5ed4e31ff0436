/** What the messages look like on the wire, byte by byte. */
module PeerMessageBytes {
  import opened Wrappers
  import opened Bytes
  import opened Pieces
  import opened PeerMessages

  /** The four bytes from position `at` on are the number `n`, most significant first. */
  predicate NumberAt(f: seq<byte>, at: nat, n: int) {
    at + 4 <= |f|
    && f[at] as int * 16777216 + f[at + 1] as int * 65536 + f[at + 2] as int * 256 + f[at + 3] as int == n
  }

  /** The frame starts like a handshake: the number 19 and the 19 characters of the protocol's name. */
  predicate StartsAsHandshake(f: seq<byte>) {
    |f| >= 20 && f[0] == 19
    && forall i :: 0 <= i < 19 ==> f[1 + i] as int == "BitTorrent protocol"[i] as int
  }

  /** The payload, cut or filled with zeros to `n` bytes, from position 5 of the frame to its end. */
  predicate CarriesPadded(f: seq<byte>, payload: seq<byte>, n: nat) {
    |f| == 5 + n && forall i :: 0 <= i < n ==> f[5 + i] == if i < |payload| then payload[i] else 0
  }

  lemma PutIsNumber(n: nat, rest: seq<byte>)
    requires n < TWO_TO_32
    ensures NumberAt(PutUint32(n) + rest, 0, n)
  {
    Uint32OfPut(n, rest);
  }

  lemma HandshakeIs(f: seq<byte>)
    ensures IsPeerHandshakeMsg(f) <==> StartsAsHandshake(f)
  {
    ProtocolIsText();
    if |f| >= 20 {
      if IsPeerHandshakeMsg(f) {
        forall i | 0 <= i < 19
          ensures f[1 + i] as int == "BitTorrent protocol"[i] as int
        {
          assert f[1..20][i] == PROTOCOL[i];
        }
      }
      if StartsAsHandshake(f) {
        assert f[1..20] == PROTOCOL;
      }
    }
  }

  lemma ProtocolIsText()
    ensures |PROTOCOL| == 19 && forall i :: 0 <= i < 19 ==> PROTOCOL[i] as int == "BitTorrent protocol"[i] as int
  {
  }

  /** The bytes of a frame: the length of what follows, the id, and the body. */
  lemma FrameBytes(kind: Kind, body: seq<byte>)
    requires !kind.Handshake? && !kind.KeepAlive?
    ensures var f := Frame(kind, body);
      NumberAt(f, 0, (|body| + 1) % TWO_TO_32) && f[4..] == [Id(kind)] + body
  {
    PutIsNumber(ToUint32(|body| + 1), [Id(kind)] + body);
  }

  /** What the messages without a payload put on the wire. */
  lemma FixedBytes(m: PeerMsg)
    ensures m.kind.KeepAlive? ==> Encode(m) == Ok([0, 0, 0, 0])
    ensures m.kind.Choked? ==> Encode(m) == Ok([0, 0, 0, 1, 0])
    ensures m.kind.Unchoked? ==> Encode(m) == Ok([0, 0, 0, 1, 1])
    ensures m.kind.Interested? ==> Encode(m) == Ok([0, 0, 0, 1, 2])
    ensures m.kind.NotInterested? ==> Encode(m) == Ok([0, 0, 0, 1, 3])
  {
    assert PutUint32(0) == [0, 0, 0, 0] && PutUint32(1) == [0, 0, 0, 1];
    if m.kind.Choked? || m.kind.Unchoked? || m.kind.Interested? || m.kind.NotInterested? {
      assert Frame(m.kind, []) == [0, 0, 0, 1, Id(m.kind)];
    }
  }

  /** HAVE and REQUEST messages have a payload of fixed size, whatever they were made with; made with none they
      cannot be sent. */
  lemma PaddedBytes(m: PeerMsg)
    requires m.kind.Have? || m.kind.Request?
    ensures m.payload == [] <==> Encode(m).Err?
    ensures m.payload != [] ==> Encode(m).Ok?
    ensures m.payload != [] && m.kind.Have? ==>
      CarriesPadded(Encode(m).value, m.payload, 4) && Encode(m).value[..5] == [0, 0, 0, 5, 4]
    ensures m.payload != [] && m.kind.Request? ==>
      CarriesPadded(Encode(m).value, m.payload, 12) && Encode(m).value[..5] == [0, 0, 0, 13, 6]
  {
    assert PutUint32(5) == [0, 0, 0, 5] && PutUint32(13) == [0, 0, 0, 13];
  }

  /** BITFIELD and PIECE messages carry their payload as it is; an empty PIECE cannot be sent. */
  lemma PayloadBytes(m: PeerMsg)
    requires m.kind.Bitfield? || m.kind.Piece?
    ensures if m.kind.Piece? && m.payload == [] then Encode(m).Err?
            else Encode(m).Ok? && NumberAt(Encode(m).value, 0, (|m.payload| + 1) % TWO_TO_32)
                 && Encode(m).value[4..] == (if m.kind.Bitfield? then [5] else [7]) + m.payload
  {
    FrameBytes(m.kind, m.payload);
    assert m.payload[..|m.payload|] == m.payload;
  }

  // ---------- what the builders put on the wire ----------

  /** HAVE: five bytes of header and the index. */
  lemma HaveBytes(i: nat)
    requires i < TWO_TO_32
    ensures Encode(BuildPeerHaveMsg(i)).Ok?
    ensures var f := Encode(BuildPeerHaveMsg(i)).value;
      |f| == 9 && f[..5] == [0, 0, 0, 5, 4] && NumberAt(f, 5, i)
  {
    var m := BuildPeerHaveMsg(i);
    PaddedBytes(m);
    var f := Encode(m).value;
    PutIsNumber(i, []);
    assert PutUint32(i) + [] == PutUint32(i);
    assert f[5] == m.payload[0] && f[6] == m.payload[1] && f[7] == m.payload[2] && f[8] == m.payload[3];
  }

  /** The message asks for the block: its payload are piece index, offset and length, each modulo 2^32. */
  predicate AsksFor(m: PeerMsg, b: Block) {
    && m.kind.Request? && |m.payload| == 12 && NumberAt(m.payload, 0, b.pieceIdx % TWO_TO_32)
    && NumberAt(m.payload, 4, b.begin % TWO_TO_32) && NumberAt(m.payload, 8, b.length % TWO_TO_32)
  }

  lemma RequestPayload(b: Block)
    ensures AsksFor(BuildPeerRequestMsg(b), b)
  {
    var p := BuildPeerRequestMsg(b).payload;
    var i, begin, length := ToUint32(b.pieceIdx), ToUint32(b.begin), ToUint32(b.length);
    var x, y, z := PutUint32(i), PutUint32(begin), PutUint32(length);
    PutIsNumber(i, []);
    PutIsNumber(begin, []);
    PutIsNumber(length, []);
    assert x + [] == x && y + [] == y && z + [] == z && p == x + y + z;
  }

  /** REQUEST: five bytes of header, then piece index, offset and length. */
  lemma RequestBytes(b: Block)
    requires 0 <= b.pieceIdx < TWO_TO_32 && b.begin < TWO_TO_32 && b.length < TWO_TO_32
    ensures Encode(BuildPeerRequestMsg(b)).Ok?
    ensures var f := Encode(BuildPeerRequestMsg(b)).value;
      && |f| == 17 && f[..5] == [0, 0, 0, 13, 6]
      && NumberAt(f, 5, b.pieceIdx) && NumberAt(f, 9, b.begin) && NumberAt(f, 13, b.length)
  {
    var m := BuildPeerRequestMsg(b);
    PaddedBytes(m);
    RequestPayload(b);
    var f := Encode(m).value;
    assert forall i :: 0 <= i < 12 ==> f[5 + i] == m.payload[i];
    assert f[5] == m.payload[0] && f[6] == m.payload[1] && f[7] == m.payload[2] && f[8] == m.payload[3];
    assert f[9] == m.payload[4] && f[10] == m.payload[5] && f[11] == m.payload[6] && f[12] == m.payload[7];
    assert f[13] == m.payload[8] && f[14] == m.payload[9] && f[15] == m.payload[10] && f[16] == m.payload[11];
  }

  /** PIECE: the length of what follows, the id 7, piece index, offset, and the block's bytes. */
  lemma PieceBytes(b: Block)
    requires 0 <= b.pieceIdx < TWO_TO_32 && b.begin < TWO_TO_32
    ensures Encode(BuildPeerPieceMsg(b)).Ok?
    ensures var f := Encode(BuildPeerPieceMsg(b)).value;
      && |f| == 13 + |b.buff| && NumberAt(f, 0, (|b.buff| + 9) % TWO_TO_32) && f[4] == 7
      && NumberAt(f, 5, b.pieceIdx) && NumberAt(f, 9, b.begin) && f[13..] == b.buff
  {
    var f, x, y := Encode(BuildPeerPieceMsg(b)).value, PutUint32(b.pieceIdx), PutUint32(b.begin);
    PayloadBytes(BuildPeerPieceMsg(b));
    PutIsNumber(b.pieceIdx, []);
    PutIsNumber(b.begin, []);
    assert x + [] == x && y + [] == y;
    Slices(f, x, y, b.buff);
  }

  lemma Slices(f: seq<byte>, x: seq<byte>, y: seq<byte>, z: seq<byte>)
    requires |x| == 4 && |y| == 4 && |f| == 13 + |z| && f[4..] == [7] + (x + y + z)
    ensures f[4] == 7 && f[5..9] == x && f[9..13] == y && f[13..] == z
  {
    var head := f[..4];
    assert f == head + ([7] + (x + y + z));
  }

  /** The handshake: its start, eight zeros, the torrent's hash and the peer's identity. */
  lemma HandshakeBytes(peerId: seq<byte>, infoHash: seq<byte>)
    requires |peerId| == 20 && |infoHash| == 20
    ensures Encode(BuildPeerHandshakeMsg(peerId, infoHash)).Ok?
    ensures var f := Encode(BuildPeerHandshakeMsg(peerId, infoHash)).value;
      && |f| == 68 && StartsAsHandshake(f) && f[20..28] == [0, 0, 0, 0, 0, 0, 0, 0]
      && f[28..48] == infoHash && f[48..] == peerId
  {
    var f := BuildPeerHandshakeMsg(peerId, infoHash).payload;
    assert f[1..20] == PROTOCOL;
    HandshakeIs(f);
  }

  // ---------- what is made of the bytes read ----------

  /** The length announced by the first bytes of a buffer. */
  lemma LengthRead(buf: seq<byte>)
    ensures StartsAsHandshake(buf) ==> ParseRawPeerMsgLength(buf) == Ok(68)
    ensures !StartsAsHandshake(buf) && |buf| < 4 ==> ParseRawPeerMsgLength(buf).Err?
    ensures !StartsAsHandshake(buf) ==> forall n :: NumberAt(buf, 0, n) ==>
      ParseRawPeerMsgLength(buf) == if n + 4 <= 16640 then Ok(n + 4) else Err("ERR_PEER_LISTEN")
  {
    HandshakeIs(buf);
  }

  /** The kind of message that an id stands for. */
  predicate KindOf(id: byte, kind: Kind) {
    match kind
    case Choked => id == 0
    case Unchoked => id == 1
    case Interested => id == 2
    case NotInterested => id == 3
    case Have => id == 4
    case Bitfield => id == 5
    case Request => id == 6
    case Piece => id == 7
    case _ => false
  }

  /** A frame that does not start as a handshake: the fifth byte tells the kind, what follows it is the
      payload; without a fifth byte the frame is a KEEP_ALIVE, whatever its bytes. */
  lemma FrameParsed(buf: seq<byte>)
    requires !StartsAsHandshake(buf)
    ensures |buf| <= 4 ==> Parse(buf) == Ok(PeerMsg(KeepAlive, []))
    ensures |buf| > 4 && buf[4] >= 8 ==> Parse(buf) == Err("ERR_PARSE_PEER")
    ensures |buf| > 4 && buf[4] < 8 ==>
      Parse(buf).Ok? && KindOf(buf[4], Parse(buf).value.kind) && Parse(buf).value.payload == buf[5..]
  {
    HandshakeIs(buf);
  }

  /** A frame that starts as a handshake is one if it is long enough; its reserved bytes are ignored. */
  lemma HandshakeParsed(buf: seq<byte>)
    requires StartsAsHandshake(buf)
    ensures |buf| < 68 ==> Parse(buf) == Err("ERR_PEER_LISTEN")
    ensures |buf| >= 68 ==>
      && Parse(buf).Ok? && Parse(buf).value.kind == Handshake
      && var p := Parse(buf).value.payload;
         |p| == 68 && StartsAsHandshake(p) && p[20..28] == [0, 0, 0, 0, 0, 0, 0, 0] && p[28..] == buf[28..68]
  {
    HandshakeIs(buf);
    if |buf| >= 68 {
      var p := Parse(buf).value.payload;
      assert p[1..20] == PROTOCOL;
      HandshakeIs(p);
      assert buf[28..68] == buf[28..48] + buf[48..68];
    }
  }

  // ---------- the fields ----------

  /** The index of a HAVE payload; a payload too short for it panics. */
  lemma HaveField(payload: seq<byte>)
    ensures HavePieceIdx(payload).Panic? <==> |payload| < 4
    ensures forall n :: NumberAt(payload, 0, n) ==> HavePieceIdx(payload) == Ok(n)
  {
  }

  /** The block a REQUEST payload asks for; its index is the quotient of offset and length, so that a length of
      zero panics. */
  lemma RequestFields(payload: seq<byte>, p: int, begin: int, length: int)
    ensures |payload| < 12 ==> RequestedBlock(payload).Err?
    ensures NumberAt(payload, 0, p) && NumberAt(payload, 4, begin) && NumberAt(payload, 8, length) ==>
      if length == 0 then RequestedBlock(payload).Panic?
      else RequestedBlock(payload) == Ok(Block(begin / length, p, begin, [], length, false))
  {
  }

  /** The block a PIECE payload brings; its index is the quotient of its offset and the number of its bytes. */
  lemma PieceFields(payload: seq<byte>, p: int, begin: int)
    ensures |payload| <= 8 ==> ReceivedBlock(payload).Err?
    ensures |payload| > 8 && NumberAt(payload, 0, p) && NumberAt(payload, 4, begin) ==>
      var size := |payload| - 8;
      ReceivedBlock(payload) == Ok(Block(begin / size, p, begin, payload[8..], size % TWO_TO_32, false))
  {
  }
}
