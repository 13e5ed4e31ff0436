/** A block asked for, served and received over the wire. */
module Serving {
  import opened Wrappers
  import opened Bytes
  import opened Pieces
  import opened Arithmetic
  import opened Addressing
  import opened PeerMessages
  import opened PeerMessageBytes
  import opened FramingLimits
  import opened FileInfos

  /** The files of a peer that holds the finished torrent. */
  function SeederFiles(t: Torrent): Files {
    Files(map[], Some(t.content), true)
  }

  /** The block that arrives in answer to a request for block `k` of piece `p`. */
  function HonestBlock(t: Torrent, p: int, k: int): Block
    requires t.Valid() && t.HasBlock(p, k)
  {
    t.OffsetInRange(p, k);
    Block(k, p, k * t.blockLength, t.Chunk(p, k), t.blockLength, false)
  }

  function HonestPayload(t: Torrent, p: int, k: int): seq<byte>
    requires t.Valid() && t.HasBlock(p, k)
  {
    BuildPeerPieceMsg(HonestBlock(t, p, k)).payload
  }

  /** The position the seeder computes is the block's place in the file. */
  lemma SeekIsOffset(t: Torrent, p: int, k: int)
    requires t.Valid() && t.HasBlock(p, k)
    ensures SeekLocation(p, k, t.blocksPerPiece, t.blockLength) == t.Offset(p, k)
  {
    MulSplit(p * t.blocksPerPiece, k, t.blockLength);
    MulAssociative(p, t.blocksPerPiece, t.blockLength);
  }

  lemma FieldsFit(t: Torrent, p: int, k: int)
    requires t.Valid() && t.HasBlock(p, k)
    ensures 0 <= p < TWO_TO_32 && 0 <= k * t.blockLength < TWO_TO_32 && 0 < t.blockLength < TWO_TO_32
  {
    t.OffsetInRange(p, k);
  }

  lemma RequestIsUnderstood(t: Torrent, p: int, k: int)
    requires t.Valid() && t.HasBlock(p, k)
    ensures RequestedBlock(BuildPeerRequestMsg(t.UniformBlock(p, k)).payload)
         == Ok(NewBlock(k, p, k * t.blockLength, t.blockLength, []))
  {
    FieldsFit(t, p, k);
    var payload := BuildPeerRequestMsg(t.UniformBlock(p, k)).payload;
    var a, b, c := PutUint32(p), PutUint32(k * t.blockLength), PutUint32(t.blockLength);
    Uint32OfPut(p, b + c);
    Uint32OfPut(k * t.blockLength, c);
    Uint32OfPut(t.blockLength, []);
    assert payload == a + (b + c) && payload[4..] == b + c && payload[8..] == c + [];
    QuotientUnique(k, 0, t.blockLength);
  }

  // ---------- answering any REQUEST ----------

  /** How a REQUEST for the `k`-th block of a piece is answered from a table and files: by nothing the client
      survives, by an error, or by a PIECE message with that block's piece index and offset. */
  ghost predicate AnsweredAs(t: Table, f: Files, p: int, k: nat, r: Result<PeerMsg>) {
    if p !in t || k >= ToUint32(|t[p].blocks|) then r.Panic?
    else BlockSent(f, t[p].idx, |t[p].blocks|, t[p].blocks[k], r)
  }

  /** Block `b` of the `i`-th piece, which has `n` blocks, is sent: as it is, or with the bytes of the finished
      file, if there is one that reaches that far. */
  ghost predicate BlockSent(f: Files, i: int, n: nat, b: Block, r: Result<PeerMsg>) {
    if !f.isSeeding then r.Ok? && Carries(r.value, b, b.buff)
    else if f.finalFile.None? then r.Err?
    else
      var at := (i * n + b.idx) * b.length;
      if at < 0 || (b.length > 0 && at >= |f.finalFile.value|) then r.Err?
      else r.Ok? && exists bytes :: ReadsFrom(bytes, f.finalFile.value, at, b.length) && Carries(r.value, b, bytes)
  }

  /** The bytes of the file from position `at` on, and zeros beyond its end. */
  ghost predicate ReadsFrom(bytes: seq<byte>, file: seq<byte>, at: int, n: nat) {
    at >= 0 && |bytes| == n
    && forall q :: 0 <= q < n ==> bytes[q] == if at + q < |file| then file[at + q] else 0
  }

  ghost predicate Carries(m: PeerMsg, b: Block, bytes: seq<byte>) {
    && m.kind.Piece? && |m.payload| == 8 + |bytes| && m.payload[8..] == bytes
    && NumberAt(m.payload, 0, b.pieceIdx % TWO_TO_32) && NumberAt(m.payload, 4, b.begin % TWO_TO_32)
  }

  lemma PieceCarries(b: Block, bytes: seq<byte>)
    ensures Carries(BuildPeerPieceMsg(b.(buff := bytes)), b, bytes)
  {
    var x, y := ToUint32(b.pieceIdx), ToUint32(b.begin);
    PutIsNumber(x, PutUint32(y) + bytes);
    PutIsNumber(y, bytes);
    assert PutUint32(x) + PutUint32(y) + bytes == PutUint32(x) + (PutUint32(y) + bytes);
    var p := BuildPeerPieceMsg(b.(buff := bytes)).payload;
    assert p[4..] == PutUint32(y) + bytes;
  }

  lemma ReadAtReads(file: seq<byte>, at: int, n: nat)
    ensures ReadAt(file, at, n).Ok? <==> at >= 0 && (n == 0 || at < |file|)
    ensures !ReadAt(file, at, n).Panic?
    ensures ReadAt(file, at, n).Ok? ==> ReadsFrom(ReadAt(file, at, n).value, file, at, n)
  {
  }

  function BlockFrom(f: Files, i: int, n: nat, b: Block): Result<PeerMsg> {
    if !f.isSeeding then Ok(BuildPeerPieceMsg(b))
    else if f.finalFile.None? then Err("ERR_FILEINFO_READ_DOWNLOADED_DATA")
    else match ReadAt(f.finalFile.value, SeekLocation(i, b.idx, n, b.length), b.length)
         case Ok(buff) => Ok(BuildPeerPieceMsg(b.(buff := buff)))
         case Err(e) => Err(e)
         case Panic => Panic
  }

  lemma BlockFromSends(f: Files, i: int, n: nat, b: Block)
    ensures BlockSent(f, i, n, b, BlockFrom(f, i, n, b))
  {
    PieceCarries(b, b.buff);
    assert b.(buff := b.buff) == b;
    if f.isSeeding && f.finalFile.Some? {
      var at := SeekLocation(i, b.idx, n, b.length);
      ReadAtReads(f.finalFile.value, at, b.length);
      if ReadAt(f.finalFile.value, at, b.length).Ok? {
        PieceCarries(b, ReadAt(f.finalFile.value, at, b.length).value);
      }
    }
  }

  lemma FoundIsAnswered(t: Table, f: Files, payload: seq<byte>, b: Block, k: nat)
    requires RequestedBlock(payload) == Ok(b) && b.length > 0 && b.begin / b.length == k
    ensures Answer(t, f, payload)
         == if b.pieceIdx !in t || k >= ToUint32(|t[b.pieceIdx].blocks|) then Panic
            else BlockFrom(f, t[b.pieceIdx].idx, |t[b.pieceIdx].blocks|, t[b.pieceIdx].blocks[k])
  {
  }

  /** Every REQUEST, whatever its fields, the table and the files: a payload of fewer than twelve bytes is
      answered with an error, one that asks for no bytes panics, and any other is taken to ask for the block
      within which its offset would lie if all blocks had the length it asks for. */
  lemma AnswerOutcome(t: Table, f: Files, payload: seq<byte>, p: int, begin: nat, length: nat, k: nat)
    requires k * length <= begin && (length > 0 ==> begin < (k + 1) * length)
    ensures |payload| < 12 ==> Answer(t, f, payload).Err?
    ensures NumberAt(payload, 0, p) && NumberAt(payload, 4, begin) && NumberAt(payload, 8, length) ==>
      if length == 0 then Answer(t, f, payload).Panic? else AnsweredAs(t, f, p, k, Answer(t, f, payload))
  {
    if NumberAt(payload, 0, p) && NumberAt(payload, 4, begin) && NumberAt(payload, 8, length) {
      RequestFields(payload, p, begin, length);
      if length > 0 {
        Quotient(k, begin, length);
        FoundIsAnswered(t, f, payload, RequestedBlock(payload).value, k);
        if p in t && k < ToUint32(|t[p].blocks|) {
          BlockFromSends(f, t[p].idx, |t[p].blocks|, t[p].blocks[k]);
        }
      }
    }
  }

  lemma Quotient(k: nat, begin: nat, length: nat)
    requires length > 0 && k * length <= begin < (k + 1) * length
    ensures begin / length == k
  {
    MulSucc(k, length);
    QuotientUnique(k, begin - k * length, length);
  }

  /** A HAVE message survives the wire and is read back as the index it was built for. */
  lemma HaveIsUnderstood(i: nat)
    requires i < TWO_TO_32
    ensures var m := BuildPeerHaveMsg(i);
      Readable(m) && HavePieceIdx(m.payload) == Ok(i)
  {
    Uint32OfPut(i, []);
    assert PutUint32(i) + [] == PutUint32(i);
    ReadableIff(BuildPeerHaveMsg(i));
  }

  lemma ServedFromTheFile(t: Torrent, p: int, k: int)
    requires t.Valid() && t.HasBlock(p, k)
    ensures FindBlock(t.Table(true), SeederFiles(t), p, k * t.blockLength, t.blockLength)
         == Ok(Some(t.UniformBlock(p, k).(buff := t.Chunk(p, k))))
  {
    UniformPiece(t, p, true);
    UniformLookup(t, p, k, true);
    SeekIsOffset(t, p, k);
    t.OffsetInRange(p, k);
    assert t.Table(true)[p].idx == p;
  }

  /** The PIECE message of a block that starts at a multiple of its length is read back as that block. */
  lemma PieceIsUnderstood(block: Block)
    requires 0 <= block.pieceIdx < TWO_TO_32 && block.begin < TWO_TO_32 && 0 < block.length < TWO_TO_32
    requires |block.buff| == block.length && block.begin == block.idx * block.length && !block.isLastBlock
    ensures ReceivedBlock(BuildPeerPieceMsg(block).payload) == Ok(block)
  {
    var payload := BuildPeerPieceMsg(block).payload;
    var a, b := PutUint32(block.pieceIdx), PutUint32(block.begin);
    Uint32OfPut(block.pieceIdx, b + block.buff);
    Uint32OfPut(block.begin, block.buff);
    assert payload == a + (b + block.buff) && payload[4..] == b + block.buff && payload[8..] == block.buff;
    QuotientUnique(block.idx, 0, block.length);
  }

  lemma ReplyIsUnderstood(t: Torrent, p: int, k: int)
    requires t.Valid() && t.HasBlock(p, k)
    ensures ReceivedBlock(HonestPayload(t, p, k)) == Ok(HonestBlock(t, p, k))
  {
    FieldsFit(t, p, k);
    PieceIsUnderstood(HonestBlock(t, p, k));
  }

  /** The answer to any REQUEST for a block fits the reader. */
  predicate FitsReader(t: Torrent) {
    t.blockLength + 13 <= MAX_MSG_LENGTH
  }

  lemma ReplyIsReadableIff(t: Torrent, p: int, k: int)
    requires t.Valid() && t.HasBlock(p, k)
    ensures Readable(PeerMsg(Kind.Piece, HonestPayload(t, p, k))) <==> FitsReader(t)
  {
    ReadableIff(PeerMsg(Kind.Piece, HonestPayload(t, p, k)));
  }

  /** Asking a seeder for any block of a uniform torrent: the REQUEST comes out of the seeder's reader as it
      was sent, and the seeder's answer is the PIECE message of that very block, with the right indices,
      offset, length and bytes.  The answer comes out of the client's reader exactly when a block and its
      header are within the reader's limit. */
  lemma RequestServeReceive(t: Torrent, p: int, k: int)
    requires t.Valid() && t.HasBlock(p, k)
    ensures var request := BuildPeerRequestMsg(t.UniformBlock(p, k));
      && Readable(request)
      && var answer := Answer(t.Table(true), SeederFiles(t), request.payload);
      && answer == Ok(PeerMsg(Kind.Piece, HonestPayload(t, p, k)))
      && (Readable(answer.value) <==> FitsReader(t))
      && ReceivedBlock(answer.value.payload) == Ok(HonestBlock(t, p, k))
  {
    RequestIsUnderstood(t, p, k);
    ServedFromTheFile(t, p, k);
    ReplyIsUnderstood(t, p, k);
    ReadableIff(BuildPeerRequestMsg(t.UniformBlock(p, k)));
    ReplyIsReadableIff(t, p, k);
  }
}
