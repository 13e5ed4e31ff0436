/** The messages of the peer protocol: builders, encoding, parsing and field access. */
module PeerMessages {
  import opened Wrappers
  import opened Bytes
  import opened Pieces

  datatype Kind =
    | Handshake | KeepAlive | Choked | Unchoked | Interested | NotInterested
    | Have | Bitfield | Request | Piece

  datatype PeerMsg = PeerMsg(kind: Kind, payload: seq<byte>)

  const MAX_MSG_LENGTH := 16640

  /** The bytes of "BitTorrent protocol". */
  const PROTOCOL: seq<byte> :=
    [66, 105, 116, 84, 111, 114, 114, 101, 110, 116, 32, 112, 114, 111, 116, 111, 99, 111, 108]

  const RESERVED: seq<byte> := [0, 0, 0, 0, 0, 0, 0, 0]

  /** The message id of every kind that has one. */
  function Id(kind: Kind): byte
    requires !kind.Handshake? && !kind.KeepAlive?
  {
    match kind
    case Choked => 0
    case Unchoked => 1
    case Interested => 2
    case NotInterested => 3
    case Have => 4
    case Bitfield => 5
    case Request => 6
    case Piece => 7
  }

  // ---------- encoding ----------

  /** `Read` of a `bytes.Reader` into a buffer of `n` zero bytes: an empty source is an error, a short one
      leaves the rest of the buffer zero, a long one is cut. */
  function ReadInto(source: seq<byte>, n: nat): Result<seq<byte>> {
    if source == [] then Err("ERR_PEER_LISTEN")
    else if |source| >= n then Ok(source[..n])
    else Ok(source + seq(n - |source|, _ => 0))
  }

  function Frame(kind: Kind, body: seq<byte>): seq<byte>
    requires !kind.Handshake? && !kind.KeepAlive?
  {
    PutUint32(ToUint32(|body| + 1)) + [Id(kind)] + body
  }

  /** What a message puts on the wire after its id. */
  function Body(m: PeerMsg): Result<seq<byte>> {
    match m.kind
    case Have => ReadInto(m.payload, 4)
    case Request => ReadInto(m.payload, 12)
    case Piece => ReadInto(m.payload, |m.payload|)
    case Bitfield | Handshake => Ok(m.payload)
    case _ => Ok([])
  }

  /** `Bytes()` of each message type. */
  function Encode(m: PeerMsg): Result<seq<byte>> {
    if m.kind.Handshake? then Ok(m.payload)
    else if m.kind.KeepAlive? then Ok(PutUint32(0))
    else match Body(m)
         case Ok(body) => Ok(Frame(m.kind, body))
         case Err(e) => Err(e)
         case Panic => Panic
  }

  // ---------- parsing ----------

  predicate IsPeerHandshakeMsg(buf: seq<byte>) {
    |buf| >= 20 && buf[0] == 19 && buf[1..20] == PROTOCOL
  }

  /** The length of the frame at the start of `buf`. */
  function ParseRawPeerMsgLength(buf: seq<byte>): Result<nat> {
    if IsPeerHandshakeMsg(buf) then Ok(68)
    else if |buf| < 4 then Err("ERR_PEER_LISTEN")
    else if Uint32(buf) + 4 > MAX_MSG_LENGTH then Err("ERR_PEER_LISTEN")
    else Ok(Uint32(buf) + 4)
  }

  function BuildPeerHandshakeMsg(peerId: seq<byte>, infoHash: seq<byte>): PeerMsg
    requires |peerId| == 20 && |infoHash| == 20
  {
    PeerMsg(Handshake, [19] + PROTOCOL + RESERVED + infoHash + peerId)
  }

  function BuildPeerHandshakeMsgFromRawBytes(buf: seq<byte>): Result<PeerMsg> {
    if |buf| < 68 then Err("ERR_PEER_LISTEN") else Ok(BuildPeerHandshakeMsg(buf[48..68], buf[28..48]))
  }

  function KindOfId(id: byte): Option<Kind> {
    if id == 0 then Some(Choked) else if id == 1 then Some(Unchoked)
    else if id == 2 then Some(Interested) else if id == 3 then Some(NotInterested)
    else if id == 4 then Some(Have) else if id == 5 then Some(Bitfield)
    else if id == 6 then Some(Request) else if id == 7 then Some(Kind.Piece)
    else None
  }

  /** `NewPeerMsgFromBuffer`: the length prefix is skipped, not checked. */
  function Parse(buf: seq<byte>): Result<PeerMsg> {
    if IsPeerHandshakeMsg(buf) then BuildPeerHandshakeMsgFromRawBytes(buf)
    else if |buf| <= 4 then Ok(PeerMsg(KeepAlive, []))
    else match KindOfId(buf[4])
         case Some(kind) => Ok(PeerMsg(kind, buf[5..]))
         case None => Err("ERR_PARSE_PEER")
  }

  // ---------- builders and field access ----------

  function BuildPeerHaveMsg(pieceIdx: nat): PeerMsg
    requires pieceIdx < TWO_TO_32
  {
    PeerMsg(Have, PutUint32(pieceIdx))
  }

  function BuildPeerRequestMsg(block: Block): PeerMsg {
    PeerMsg(Request, PutUint32(ToUint32(block.pieceIdx)) + PutUint32(ToUint32(block.begin))
                     + PutUint32(ToUint32(block.length)))
  }

  function BuildPeerPieceMsg(block: Block): PeerMsg {
    PeerMsg(Kind.Piece, PutUint32(ToUint32(block.pieceIdx)) + PutUint32(ToUint32(block.begin)) + block.buff)
  }

  /** `GetPieceIdx` of a HAVE message; `binary.BigEndian` panics on a short payload. */
  function HavePieceIdx(payload: seq<byte>): Result<nat> {
    if |payload| < 4 then Panic else Ok(Uint32(payload))
  }

  /** `GetBlock` of a REQUEST message; a requested length of zero divides by zero. */
  function RequestedBlock(payload: seq<byte>): Result<Block> {
    if |payload| < 12 then Err("ERR_REQUESTPEERMSG")
    else
      var pieceIdx, begin, length := Uint32(payload), Uint32(payload[4..]), Uint32(payload[8..]);
      if length == 0 then Panic else Ok(NewBlock(begin / length, pieceIdx, begin, length, []))
  }

  /** `GetBlock` of a PIECE message. */
  function ReceivedBlock(payload: seq<byte>): Result<Block> {
    if |payload| <= 8 then Err("ERR_REQUESTPEERMSG")
    else
      var pieceIdx, begin, buff := Uint32(payload), Uint32(payload[4..]), payload[8..];
      Ok(NewBlock(begin / |buff|, pieceIdx, begin, ToUint32(|buff|), buff))
  }
}
