/** How a torrent is cut into pieces and blocks, and how a block is found again. */
module Layouts {
  import opened Bytes
  import opened Pieces
  import opened Arithmetic

  // ---------- sums ----------

  function TotalLength(blocks: seq<Block>): nat {
    if blocks == [] then 0 else TotalLength(blocks[..|blocks| - 1]) + blocks[|blocks| - 1].length
  }

  function TotalPieceLength(t: Table, n: nat): int
    requires forall i :: 0 <= i < n ==> i in t
  {
    if n == 0 then 0 else TotalPieceLength(t, n - 1) + t[n - 1].length
  }

  lemma {:induction false} TotalLengthOfRegular(pieceIdx: int, n: nat, blockLength: nat)
    ensures TotalLength(Regular(pieceIdx, n, blockLength)) == n * ToUint32(blockLength)
  {
    if n > 0 {
      TotalLengthOfRegular(pieceIdx, n - 1, blockLength);
      assert Regular(pieceIdx, n, blockLength)[..n - 1] == Regular(pieceIdx, n - 1, blockLength);
    }
  }

  function Regular(pieceIdx: int, n: nat, blockLength: nat): (r: seq<Block>)
    ensures |r| == n
  {
    seq(n, i requires 0 <= i => FullBlock(pieceIdx, i, blockLength))
  }

  /** The blocks of a piece before the last one is marked. */
  function Unmarked(pieceIdx: int, pieceLength: nat, blockLength: nat): (r: seq<Block>)
    requires pieceLength > 0 && blockLength > 0
    ensures r != []
  {
    var totalBlocks, remaining := pieceLength / blockLength, pieceLength % blockLength;
    if remaining != 0
    then Regular(pieceIdx, totalBlocks, blockLength) + [PartialBlock(pieceIdx, totalBlocks, blockLength, remaining)]
    else Regular(pieceIdx, totalBlocks, blockLength)
  }

  lemma TotalLengthOfPiece(pieceIdx: int, pieceLength: nat, blockLength: nat)
    requires pieceLength > 0 && blockLength > 0
    ensures TotalLength(PieceBlocks(pieceIdx, pieceLength, blockLength))
         == pieceLength / blockLength * ToUint32(blockLength) + ToUint32(pieceLength % blockLength)
  {
    var q, r := pieceLength / blockLength, pieceLength % blockLength;
    var u, blocks := Unmarked(pieceIdx, pieceLength, blockLength), PieceBlocks(pieceIdx, pieceLength, blockLength);
    assert blocks == MarkLast(u);
    assert blocks[..|u| - 1] == u[..|u| - 1];
    assert TotalLength(blocks) == TotalLength(u);
    TotalLengthOfRegular(pieceIdx, q, blockLength);
    if r != 0 {
      assert u[..q] == Regular(pieceIdx, q, blockLength);
    }
  }

  lemma PieceBlockCount(pieceIdx: int, pieceLength: nat, blockLength: nat)
    requires pieceLength > 0 && blockLength > 0
    ensures IsCeiling(|PieceBlocks(pieceIdx, pieceLength, blockLength)|, pieceLength, blockLength)
  {
    CeilingOf(pieceLength, blockLength);
    assert PieceBlocks(pieceIdx, pieceLength, blockLength) == MarkLast(Unmarked(pieceIdx, pieceLength, blockLength));
  }

  lemma OnlyLastIsMarked(pieceIdx: int, pieceLength: nat, blockLength: nat)
    requires pieceLength > 0 && blockLength > 0
    ensures var blocks := PieceBlocks(pieceIdx, pieceLength, blockLength);
      forall k :: 0 <= k < |blocks| ==> (blocks[k].isLastBlock <==> k == |blocks| - 1)
  {
    var u := Unmarked(pieceIdx, pieceLength, blockLength);
    assert forall k :: 0 <= k < |u| ==> !u[k].isLastBlock;
    assert PieceBlocks(pieceIdx, pieceLength, blockLength) == MarkLast(u);
  }

  /** Length conservation.  A piece has `ceil(pieceLength / blockLength)` blocks, only the last of them is
      marked last, and the block lengths add up to the piece length, whatever the division leaves over,
      exactly as long as the lengths fit the 32-bit field that holds them. */
  lemma BlockLengthsConserved(pieceIdx: int, pieceLength: nat, blockLength: nat)
    requires pieceLength > 0 && blockLength > 0
    ensures var blocks := PieceBlocks(pieceIdx, pieceLength, blockLength);
      && IsCeiling(|blocks|, pieceLength, blockLength)
      && (forall k :: 0 <= k < |blocks| ==> (blocks[k].isLastBlock <==> k == |blocks| - 1))
      && (TotalLength(blocks) == pieceLength <==> blockLength < TWO_TO_32 || pieceLength < TWO_TO_32)
  {
    PieceBlockCount(pieceIdx, pieceLength, blockLength);
    OnlyLastIsMarked(pieceIdx, pieceLength, blockLength);
    TotalLengthOfPiece(pieceIdx, pieceLength, blockLength);
    DivMod(pieceLength, blockLength);
    TruncationLosesLength(pieceLength, blockLength, pieceLength / blockLength, pieceLength % blockLength);
  }

  lemma TruncationLosesLength(pieceLength: nat, blockLength: nat, q: nat, r: nat)
    requires blockLength > 0 && pieceLength == q * blockLength + r && r < blockLength
    ensures q * ToUint32(blockLength) + ToUint32(r) == pieceLength
       <==> blockLength < TWO_TO_32 || pieceLength < TWO_TO_32
  {
    if blockLength >= TWO_TO_32 {
      if q > 0 {
        MulMonotoneRight(q, ToUint32(blockLength) + 1, blockLength);
        assert q * (ToUint32(blockLength) + 1) == q * ToUint32(blockLength) + q;
        MulMonotone(1, q, blockLength);
      }
    }
  }

  /** The block has the indices, the offset and the length, the last two in 32 bits. */
  ghost predicate Is(b: Block, p: int, k: int, begin: int, length: nat) {
    b.pieceIdx == p && b.idx == k && b.begin == begin % TWO_TO_32 && b.length == length % TWO_TO_32 && b.buff == []
  }

  /** The blocks of a piece, one by one.  The trailing short block has the index of the block before it, and its
      offset is off: the number of full blocks less one block length. */
  lemma BlocksAre(pieceIdx: int, pieceLength: nat, blockLength: nat)
    requires pieceLength > 0 && blockLength > 0
    ensures var blocks, n := PieceBlocks(pieceIdx, pieceLength, blockLength), pieceLength / blockLength;
      && |blocks| == (if pieceLength % blockLength == 0 then n else n + 1)
      && (forall k :: 0 <= k < n ==> Is(blocks[k], pieceIdx, k, k * blockLength, blockLength))
      && (pieceLength % blockLength != 0 ==>
            Is(blocks[n], pieceIdx, n - 1, n - blockLength, pieceLength % blockLength))
  {
    var u := Unmarked(pieceIdx, pieceLength, blockLength);
    assert PieceBlocks(pieceIdx, pieceLength, blockLength) == MarkLast(u);
    var n := pieceLength / blockLength;
    forall k | 0 <= k < n
      ensures Is(u[k], pieceIdx, k, k * blockLength, blockLength)
    {
      assert u[k] == FullBlock(pieceIdx, k, blockLength);
    }
  }

  // ---------- the piece table of a torrent ----------

  function LastPieceLength(torrentLength: nat, pieceLength: nat): (r: nat)
    requires pieceLength > 0
    ensures 0 < r <= pieceLength
  {
    if torrentLength % pieceLength != 0 then torrentLength % pieceLength else pieceLength
  }

  function PieceLengthAt(i: nat, totalPieces: nat, pieceLength: nat, torrentLength: nat): (r: nat)
    requires pieceLength > 0
    ensures 0 < r <= pieceLength
  {
    if i == totalPieces - 1 then LastPieceLength(torrentLength, pieceLength) else pieceLength
  }

  function TablePiece(i: nat, totalPieces: nat, pieceLength: nat, blockLength: nat, torrentLength: nat,
                      isSeeding: bool): (p: Piece)
    requires pieceLength > 0 && blockLength > 0
    ensures p.idx == i && p.length == PieceLengthAt(i, totalPieces, pieceLength, torrentLength)
  {
    NewPiece(i, PieceLengthAt(i, totalPieces, pieceLength, torrentLength), blockLength, isSeeding)
      .(isLastPiece := i == totalPieces - 1)
  }

  function NewTable(totalPieces: nat, pieceLength: nat, blockLength: nat, torrentLength: nat, isSeeding: bool): Table
    requires pieceLength > 0 && blockLength > 0
  {
    map i: int | 0 <= i < totalPieces ::
      TablePiece(i, totalPieces, pieceLength, blockLength, torrentLength, isSeeding)
  }

  /** The layout part of `NewFileInfo`. */
  method NewPieces(totalPieces: nat, pieceLength: nat, blockLength: nat, torrentLength: nat, isSeeding: bool)
    returns (pieces: SafePieces)
    requires totalPieces > 0 && pieceLength > 0 && blockLength > 0
    ensures fresh(pieces) && pieces.reservations == []
    ensures pieces.data == NewTable(totalPieces, pieceLength, blockLength, torrentLength, isSeeding)
  {
    pieces := new SafePieces();
    for pieceIdx := 0 to totalPieces - 1
      invariant pieces.reservations == []
      invariant forall i :: i in pieces.data <==> 0 <= i < pieceIdx
      invariant forall i :: 0 <= i < pieceIdx ==>
        pieces.data[i] == TablePiece(i, totalPieces, pieceLength, blockLength, torrentLength, isSeeding)
    {
      var p := CalculateNewPiece(pieceIdx, pieceLength, blockLength, isSeeding);
      pieces.Put(p);
    }
    var remainingLength := torrentLength % pieceLength;
    var last;
    if remainingLength != 0 {
      last := CalculateNewPiece(totalPieces - 1, remainingLength, blockLength, isSeeding);
    } else {
      last := CalculateNewPiece(totalPieces - 1, pieceLength, blockLength, isSeeding);
    }
    pieces.Put(last);
    pieces.SetAsLastPiece(totalPieces - 1);
  }

  /** The pieces of the table, one by one. */
  lemma TableIs(totalPieces: nat, pieceLength: nat, blockLength: nat, torrentLength: nat, isSeeding: bool)
    requires totalPieces > 0 && pieceLength > 0 && blockLength > 0
    ensures var table := NewTable(totalPieces, pieceLength, blockLength, torrentLength, isSeeding);
      && (forall i :: i in table <==> 0 <= i < totalPieces)
      && forall i :: 0 <= i < totalPieces ==>
           && table[i].idx == i && (table[i].isLastPiece <==> i + 1 == totalPieces)
           && table[i].status == (if isSeeding then Done else Idle) && table[i].downloader == ""
           && table[i].length
              == (if i + 1 < totalPieces || torrentLength % pieceLength == 0 then pieceLength
                  else torrentLength % pieceLength)
           && table[i].blocks == PieceBlocks(i, table[i].length, blockLength)
  {
  }

  lemma {:induction false} TotalOfEqualPieces(t: Table, n: nat, length: nat)
    requires forall i :: 0 <= i < n ==> i in t && t[i].length == length
    ensures TotalPieceLength(t, n) == n * length
  {
    if n > 0 {
      TotalOfEqualPieces(t, n - 1, length);
      MulSucc(n, length);
    }
  }

  /** The piece lengths add up to the torrent's length exactly when the number of pieces is the torrent
      length over the piece length, rounded up. */
  lemma PieceLengthsConserved(totalPieces: nat, pieceLength: nat, blockLength: nat, torrentLength: nat, isSeeding: bool)
    requires totalPieces > 0 && pieceLength > 0 && blockLength > 0
    ensures TotalPieceLength(NewTable(totalPieces, pieceLength, blockLength, torrentLength, isSeeding), totalPieces)
         == torrentLength
       <==> IsCeiling(totalPieces, torrentLength, pieceLength)
  {
    TotalOfEqualPieces(NewTable(totalPieces, pieceLength, blockLength, torrentLength, isSeeding), totalPieces - 1,
                       pieceLength);
    DivMod(torrentLength, pieceLength);
    CountedRight(totalPieces - 1, torrentLength / pieceLength, torrentLength % pieceLength, pieceLength);
  }

  lemma CountedRight(n: nat, q: nat, r: nat, b: nat)
    requires r < b
    ensures n * b + (if r != 0 then r else b) == q * b + r <==> IsCeiling(n + 1, q * b + r, b)
  {
    MulSucc(n, b);
    MulSucc(q, b);
    if r != 0 {
      SameMultiple(n, q, b, r);
      MulCancel(n, q, b);
    } else {
      SameMultiple(n, q - 1, b, b);
      MulCancel(n, q - 1, b);
    }
  }
}
