/** Finding a block again: by division of its offset, by a seek in the finished file, and by its place in
    the walk over all blocks.  The three agree exactly for uniform layouts. */
module Addressing {
  import opened Wrappers
  import opened Bytes
  import opened Pieces
  import opened Layouts
  import opened Arithmetic

  /** The file position that the seeder computes for a block. */
  function SeekLocation(pieceIdx: int, blockIdx: int, blocksPerPiece: int, blockLength: int): int {
    (pieceIdx * blocksPerPiece + blockIdx) * blockLength
  }

  // ---------- uniform torrents ----------

  /** A torrent whose pieces all consist of the same number of full blocks, and the file it describes. */
  datatype Torrent = Torrent(pieces: nat, blocksPerPiece: nat, blockLength: nat, content: seq<byte>)
  {
    function PieceLength(): nat { blocksPerPiece * blockLength }

    predicate Valid() {
      && 0 < pieces < TWO_TO_32 && 0 < blocksPerPiece && 0 < blockLength
      && PieceLength() < TWO_TO_32
      && |content| == pieces * PieceLength()
    }

    predicate HasBlock(p: int, k: int) {
      0 <= p < pieces && 0 <= k < blocksPerPiece
    }

    /** Where block `k` of piece `p` starts in the file. */
    function Offset(p: int, k: int): int {
      p * PieceLength() + k * blockLength
    }

    /** The piece table built for this torrent. */
    function Table(isSeeding: bool): Table
      requires Valid()
    {
      BlocksPositive(blocksPerPiece, blockLength);
      NewTable(pieces, PieceLength(), blockLength, |content|, isSeeding)
    }

    lemma OffsetInRange(p: int, k: int)
      requires Valid() && HasBlock(p, k)
      ensures 0 <= k * blockLength && k * blockLength + blockLength <= PieceLength()
      ensures 0 <= Offset(p, k) && Offset(p, k) + blockLength <= |content|
    {
      MulMonotone(0, k, blockLength);
      MulStrict(k, blocksPerPiece, blockLength);
      MulMonotone(0, p, PieceLength());
      MulStrict(p, pieces, PieceLength());
    }

    /** The bytes of block `k` of piece `p`. */
    function Chunk(p: int, k: int): (r: seq<byte>)
      requires Valid() && HasBlock(p, k)
      ensures |r| == blockLength
    {
      OffsetInRange(p, k);
      content[Offset(p, k)..Offset(p, k) + blockLength]
    }

    function UniformBlock(p: int, k: int): Block
      requires Valid() && HasBlock(p, k)
    {
      OffsetInRange(p, k);
      Block(k, p, k * blockLength, [], blockLength, k == blocksPerPiece - 1)
    }

    ghost predicate UniformBlocks(p: int, blocks: seq<Block>)
      requires Valid() && 0 <= p < pieces
    {
      && |blocks| == blocksPerPiece
      && forall k :: 0 <= k < blocksPerPiece ==> blocks[k] == UniformBlock(p, k)
    }
  }

  lemma BlocksPositive(n: nat, b: nat)
    requires n > 0 && b > 0
    ensures n * b > 0
  {
    MulStrict(0, n, b);
  }

  lemma UniformPiece(t: Torrent, p: int, isSeeding: bool)
    requires t.Valid() && 0 <= p < t.pieces
    ensures p in t.Table(isSeeding)
    ensures t.UniformBlocks(p, t.Table(isSeeding)[p].blocks)
    ensures t.Table(isSeeding)[p].status == if isSeeding then Done else Idle
  {
    var pl := t.PieceLength();
    BlocksPositive(t.blocksPerPiece, t.blockLength);
    QuotientUnique(t.pieces, 0, pl);
    assert LastPieceLength(|t.content|, pl) == pl;
    QuotientUnique(t.blocksPerPiece, 0, t.blockLength);
    var blocks := PieceBlocks(p, pl, t.blockLength);
    assert t.Table(isSeeding)[p].blocks == blocks;
    MulMonotone(1, t.blocksPerPiece, t.blockLength);
    forall k | 0 <= k < t.blocksPerPiece
      ensures blocks[k] == t.UniformBlock(p, k)
    {
      t.OffsetInRange(p, k);
    }
  }

  /** In a uniform layout a block is found again from its offset and length. */
  lemma UniformLookup(t: Torrent, p: int, k: int, isSeeding: bool)
    requires t.Valid() && t.HasBlock(p, k)
    ensures p in t.Table(isSeeding)
    ensures t.Table(isSeeding)[p].GetBlockFromOffset(k * t.blockLength, t.blockLength) == Some(t.UniformBlock(p, k))
  {
    UniformPiece(t, p, isSeeding);
    QuotientUnique(k, 0, t.blockLength);
    MulMonotoneRight(t.blocksPerPiece, 1, t.blockLength);
  }

  // ---------- tiling ----------

  ghost predicate EqualCounts(table: Table, n: nat, c: nat) {
    forall i :: 0 <= i < n ==> i in table && |table[i].blocks| == c
  }

  lemma {:induction false} WalkLength(table: Table, n: nat, c: nat)
    requires EqualCounts(table, n, c)
    ensures |BlocksUpTo(table, n)| == n * c
  {
    if n > 0 {
      WalkLength(table, n - 1, c);
      MulSucc(n, c);
    }
  }

  lemma {:induction false} WalkOrder(table: Table, n: nat, c: nat, p: nat, k: nat)
    requires EqualCounts(table, n, c) && p < n && k < c
    ensures 0 <= p * c + k < |BlocksUpTo(table, n)|
    ensures BlocksUpTo(table, n)[p * c + k] == table[p].blocks[k]
  {
    WalkLength(table, n - 1, c);
    MulMonotone(0, p, c);
    if p < n - 1 {
      WalkOrder(table, n - 1, c, p, k);
    }
  }

  /** Tiling.  Walking all blocks of a uniform torrent in table order, block number `m` starts at file
      position `m * blockLength`, so each block starts where its predecessor ends, the first at zero and
      the last ending with the torrent. */
  lemma BlocksTileTheFile(t: Torrent, isSeeding: bool, m: nat)
    requires t.Valid() && m < t.pieces * t.blocksPerPiece
    ensures EqualCounts(t.Table(isSeeding), t.pieces, t.blocksPerPiece)
    ensures |BlocksUpTo(t.Table(isSeeding), t.pieces)| == t.pieces * t.blocksPerPiece
    ensures t.pieces * t.blocksPerPiece * t.blockLength == |t.content|
    ensures var b := BlocksUpTo(t.Table(isSeeding), t.pieces)[m];
      && t.HasBlock(b.pieceIdx, b.idx)
      && b.pieceIdx * t.blocksPerPiece + b.idx == m
      && b.length == t.blockLength
      && b.pieceIdx * t.PieceLength() + b.begin == m * t.blockLength
  {
    var table, c := t.Table(isSeeding), t.blocksPerPiece;
    AllCountsEqual(t, isSeeding);
    WalkLength(table, t.pieces, c);
    MulAssociative(t.pieces, c, t.blockLength);
    var p, k := m / c, m % c;
    DivMod(m, c);
    PieceOfPosition(t.pieces, c, m);
    WalkOrder(table, t.pieces, c, p, k);
    UniformPiece(t, p, isSeeding);
    MulAssociative(p, c, t.blockLength);
    MulSplit(p * c, k, t.blockLength);
  }

  lemma AllCountsEqual(t: Torrent, isSeeding: bool)
    requires t.Valid()
    ensures EqualCounts(t.Table(isSeeding), t.pieces, t.blocksPerPiece)
  {
    forall i | 0 <= i < t.pieces
      ensures i in t.Table(isSeeding) && |t.Table(isSeeding)[i].blocks| == t.blocksPerPiece
    {
      UniformPiece(t, i, isSeeding);
    }
  }

  lemma PieceOfPosition(n: nat, c: nat, m: nat)
    requires c > 0 && m < n * c
    ensures 0 <= m / c < n
  {
    DivMod(m, c);
    if m / c >= n {
      MulMonotone(n, m / c, c);
    }
  }

  /** Byte `x` of the file belongs to the block, by the block's own piece, offset and length. */
  predicate Covers(t: Torrent, b: Block, x: int) {
    var start := b.pieceIdx * t.PieceLength() + b.begin;
    start <= x < start + b.length
  }

  /** Block `m` of the walk covers byte `x`, and no other does. */
  ghost predicate OnlyCover(t: Torrent, walk: seq<Block>, x: int, m: int) {
    0 <= m < |walk| && forall n :: 0 <= n < |walk| ==> (Covers(t, walk[n], x) <==> n == m)
  }

  /** Every byte of the file lies in exactly one block of the walk over the table. */
  lemma EveryByteInOneBlock(t: Torrent, isSeeding: bool, x: nat)
    requires t.Valid() && x < |t.content|
    ensures EqualCounts(t.Table(isSeeding), t.pieces, t.blocksPerPiece)
    ensures exists m :: OnlyCover(t, BlocksUpTo(t.Table(isSeeding), t.pieces), x, m)
  {
    AllCountsEqual(t, isSeeding);
    WalkLength(t.Table(isSeeding), t.pieces, t.blocksPerPiece);
    ByteInWalk(t, x);
    var walk := BlocksUpTo(t.Table(isSeeding), t.pieces);
    forall n | 0 <= n < |walk|
      ensures Covers(t, walk[n], x) <==> n == x / t.blockLength
    {
      CoversIff(t, isSeeding, x, n);
    }
    assert OnlyCover(t, walk, x, x / t.blockLength);
  }

  lemma ByteInWalk(t: Torrent, x: nat)
    requires t.Valid() && x < |t.content|
    ensures 0 <= x / t.blockLength < t.pieces * t.blocksPerPiece
  {
    MulAssociative(t.pieces, t.blocksPerPiece, t.blockLength);
    PieceOfPosition(t.pieces * t.blocksPerPiece, t.blockLength, x);
  }

  lemma CoversIff(t: Torrent, isSeeding: bool, x: nat, n: nat)
    requires t.Valid() && n < t.pieces * t.blocksPerPiece
    ensures EqualCounts(t.Table(isSeeding), t.pieces, t.blocksPerPiece)
    ensures n < |BlocksUpTo(t.Table(isSeeding), t.pieces)|
    ensures Covers(t, BlocksUpTo(t.Table(isSeeding), t.pieces)[n], x) <==> n == x / t.blockLength
  {
    BlocksTileTheFile(t, isSeeding, n);
    InMultiple(n, x, t.blockLength);
  }

  lemma InMultiple(m: nat, x: nat, b: nat)
    requires b > 0
    ensures m * b <= x < m * b + b <==> m == x / b
  {
    DivMod(x, b);
    if m * b <= x < m * b + b {
      QuotientUnique(m, x - m * b, b);
    }
  }

  // ---------- when the layout is not uniform ----------

  /** Where block `k` of a piece really starts: after the blocks before it. */
  function TrueBegin(blocks: seq<Block>, k: nat): nat
    requires k <= |blocks|
  {
    TotalLength(blocks[..k])
  }

  lemma PrefixLength(pieceIdx: int, pieceLength: nat, blockLength: nat, k: nat)
    requires 0 < pieceLength < TWO_TO_32 && blockLength > 0
    requires k < |PieceBlocks(pieceIdx, pieceLength, blockLength)|
    ensures TrueBegin(PieceBlocks(pieceIdx, pieceLength, blockLength), k) == k * blockLength
  {
    var u, blocks := Unmarked(pieceIdx, pieceLength, blockLength), PieceBlocks(pieceIdx, pieceLength, blockLength);
    assert blocks == MarkLast(u);
    assert blocks[..k] == Regular(pieceIdx, k, blockLength);
    TotalLengthOfRegular(pieceIdx, k, blockLength);
    if k > 0 {
      DivMod(pieceLength, blockLength);
      MulMonotone(1, pieceLength / blockLength, blockLength);
    }
  }

  /** The block index written into a block is its position in the piece, for every block, exactly when the
      block length divides the piece length. */
  lemma IndexIsPositionIffUniform(pieceIdx: int, pieceLength: nat, blockLength: nat)
    requires pieceLength > 0 && blockLength > 0
    ensures var blocks := PieceBlocks(pieceIdx, pieceLength, blockLength);
      (forall k :: 0 <= k < |blocks| ==> blocks[k].idx == k) <==> pieceLength % blockLength == 0
  {
    var u, blocks := Unmarked(pieceIdx, pieceLength, blockLength), PieceBlocks(pieceIdx, pieceLength, blockLength);
    assert blocks == MarkLast(u);
    var q := pieceLength / blockLength;
    if pieceLength % blockLength != 0 {
      assert blocks[q].idx == q - 1;
    }
  }

  /** The lookup by offset and length finds each block of the piece itself. */
  ghost predicate LookupFindsAll(pieceIdx: int, pieceLength: nat, blockLength: nat)
    requires 0 < pieceLength < TWO_TO_32 && 0 < blockLength
  {
    var p := NewPiece(pieceIdx, pieceLength, blockLength, false);
    forall k :: 0 <= k < |p.blocks| ==> FindsItself(p, k)
  }

  predicate FindsItself(p: Piece, k: nat)
    requires k < |p.blocks|
  {
    p.blocks[k].length > 0
    && p.GetBlockFromOffset(p.blocks[k].begin, p.blocks[k].length) == Some(p.blocks[k])
  }

  /** The shape of the blocks of a piece, free of the notation that builds them. */
  lemma BlockShape(pieceIdx: int, pieceLength: nat, blockLength: nat, k: nat)
    requires 0 < pieceLength < TWO_TO_32 && blockLength > 0
    requires k < |PieceBlocks(pieceIdx, pieceLength, blockLength)|
    ensures var q, r, blocks := pieceLength / blockLength, pieceLength % blockLength,
                                PieceBlocks(pieceIdx, pieceLength, blockLength);
      && |blocks| == (if r != 0 then q + 1 else q)
      && blocks[k].isLastBlock == (k == |blocks| - 1)
      && (k < q ==> blocks[k].idx == k && blocks[k].begin == k * blockLength && blocks[k].length == blockLength)
      && (k == q ==> blocks[k].idx == q - 1 && blocks[k].begin == ToUint32(q - blockLength) && blocks[k].length == r)
  {
    var q := pieceLength / blockLength;
    OnlyLastIsMarked(pieceIdx, pieceLength, blockLength);
    assert PieceBlocks(pieceIdx, pieceLength, blockLength) == MarkLast(Unmarked(pieceIdx, pieceLength, blockLength));
    DivMod(pieceLength, blockLength);
    if k < q {
      MulStrict(k, q, blockLength);
      MulMonotone(0, k, blockLength);
    }
  }

  /** The trailing short block's meaningless offset, wrapped around 2^32, happens to lead back to it. */
  predicate FoundByChance(pieceLength: nat, blockLength: nat)
    requires blockLength > 0
  {
    var q, r := pieceLength / blockLength, pieceLength % blockLength;
    r > 0 && ToUint32(q - blockLength) / r == q
  }

  /** That takes blocks of two gigabytes or more. */
  lemma ChanceIsRemote(pieceLength: nat, blockLength: nat)
    requires 0 < pieceLength < 0x8000_0000 && 0 < blockLength < 0x8000_0000
    ensures !FoundByChance(pieceLength, blockLength)
  {
    var q, r := pieceLength / blockLength, pieceLength % blockLength;
    DivMod(pieceLength, blockLength);
    if r > 0 {
      DivMod(ToUint32(q - blockLength), r);
      MulMonotoneRight(q, r, blockLength);
      MulMonotoneRight(q, 1, r);
      MulMonotoneRight(q, 1, blockLength);
    }
  }

  /** Lookup by division is right for every block of a piece exactly when the block length divides the piece
      length, or else the offset of the trailing short block leads back to it by chance. */
  lemma LookupFindsAllIff(pieceIdx: int, pieceLength: nat, blockLength: nat)
    requires 0 < pieceLength < TWO_TO_32 && 0 < blockLength < TWO_TO_32
    ensures LookupFindsAll(pieceIdx, pieceLength, blockLength)
       <==> pieceLength % blockLength == 0 || FoundByChance(pieceLength, blockLength)
  {
    var p, q := NewPiece(pieceIdx, pieceLength, blockLength, false), pieceLength / blockLength;
    CountIsSmall(pieceIdx, pieceLength, blockLength);
    OnlyLastIsMarked(pieceIdx, pieceLength, blockLength);
    BlockShape(pieceIdx, pieceLength, blockLength, 0);
    forall k | 0 <= k < |p.blocks|
      ensures FindsItself(p, k) <==> k < q || FoundByChance(pieceLength, blockLength)
    {
      LookupFinds(p, pieceLength, blockLength, k);
    }
    if pieceLength % blockLength != 0 {
      assert FindsItself(p, q) <==> FoundByChance(pieceLength, blockLength);
    }
  }

  lemma LookupFinds(p: Piece, pieceLength: nat, blockLength: nat, k: nat)
    requires 0 < pieceLength < TWO_TO_32 && 0 < blockLength < TWO_TO_32
    requires p == NewPiece(p.idx, pieceLength, blockLength, false) && k < |p.blocks| < TWO_TO_32
    requires forall i :: 0 <= i < |p.blocks| ==> (p.blocks[i].isLastBlock <==> i == |p.blocks| - 1)
    ensures FindsItself(p, k) <==> k < pieceLength / blockLength || FoundByChance(pieceLength, blockLength)
  {
    BlockShape(p.idx, pieceLength, blockLength, k);
    if k < pieceLength / blockLength {
      QuotientUnique(k, 0, blockLength);
    } else if p.blocks[k].begin / p.blocks[k].length != k {
      LookupMisses(p, k);
    }
  }

  lemma LookupMisses(p: Piece, q: nat)
    requires q < |p.blocks| && p.blocks[q].length > 0
    requires p.blocks[q].begin / p.blocks[q].length != q
    requires forall k :: 0 <= k < |p.blocks| ==> (p.blocks[k].isLastBlock <==> k == q)
    ensures p.GetBlockFromOffset(p.blocks[q].begin, p.blocks[q].length) != Some(p.blocks[q])
  {
  }

  lemma CountIsSmall(pieceIdx: int, pieceLength: nat, blockLength: nat)
    requires 0 < pieceLength < TWO_TO_32 && blockLength > 0
    ensures 0 < |PieceBlocks(pieceIdx, pieceLength, blockLength)| <= pieceLength
  {
    PieceBlockCount(pieceIdx, pieceLength, blockLength);
    var n := |PieceBlocks(pieceIdx, pieceLength, blockLength)|;
    MulMonotoneRight(n - 1, 1, blockLength);
  }

  /** The position the seeder seeks to for block `k` of piece `i`. */
  function SeekOf(i: nat, blocks: seq<Block>, k: nat): int
    requires k < |blocks|
  {
    SeekLocation(i, blocks[k].idx, |blocks|, blocks[k].length)
  }

  lemma SeekOfRegular(i: nat, length: nat, blockLength: nat, k: nat)
    requires 0 < length < TWO_TO_32 && blockLength > 0 && k < length / blockLength
    ensures var blocks := PieceBlocks(i, length, blockLength);
      && k < |blocks|
      && SeekOf(i, blocks, k) == i * (|blocks| * blockLength) + TrueBegin(blocks, k)
  {
    var blocks := PieceBlocks(i, length, blockLength);
    assert blocks == MarkLast(Unmarked(i, length, blockLength));
    BlockShape(i, length, blockLength, k);
    PrefixLength(i, length, blockLength, k);
    MulSplit(i * |blocks|, k, blockLength);
    MulAssociative(i, |blocks|, blockLength);
  }

  /** The trailing short block of a piece is always sought before the place where it belongs. */
  lemma SeekOfPartial(i: nat, length: nat, blockLength: nat, pieceLength: nat)
    requires 0 < length < TWO_TO_32 && blockLength > 0 && length % blockLength != 0
    requires i > 0 ==> (length / blockLength + 1) * blockLength <= pieceLength
    ensures var blocks, q := PieceBlocks(i, length, blockLength), length / blockLength;
      && |blocks| == q + 1
      && SeekOf(i, blocks, q) < i * pieceLength + TrueBegin(blocks, q)
  {
    var blocks, q, r := PieceBlocks(i, length, blockLength), length / blockLength, length % blockLength;
    assert blocks == MarkLast(Unmarked(i, length, blockLength));
    DivMod(length, blockLength);
    BlockShape(i, length, blockLength, q);
    PrefixLength(i, length, blockLength, q);
    PartialSeekTooLow(i, q, r, blockLength, pieceLength);
  }

  lemma PartialSeekTooLow(i: nat, q: nat, r: nat, b: nat, pieceLength: nat)
    requires 0 < r < b && (i > 0 ==> (q + 1) * b <= pieceLength)
    ensures SeekLocation(i, q - 1, q + 1, r) < i * pieceLength + q * b
  {
    MulSplit(i * (q + 1), q - 1, r);
    MulAssociative(i, q + 1, r);
    MulMonotoneRight(q + 1, r, b);
    if i > 0 {
      MulMonotoneRight(i, (q + 1) * r, pieceLength);
    }
    MulSucc(q, r);
    MulMonotoneRight(q, r, b);
  }

  /** The computed seek is the true position for every block of every piece of the torrent. */
  ghost predicate SeekFindsAll(totalPieces: nat, pieceLength: nat, blockLength: nat, torrentLength: nat)
    requires 0 < pieceLength < TWO_TO_32 && blockLength > 0
  {
    forall i, k | 0 <= i < totalPieces
                  && 0 <= k < |BlocksOf(i, totalPieces, pieceLength, blockLength, torrentLength)|
      :: SeekRight(i, k, totalPieces, pieceLength, blockLength, torrentLength)
  }

  function BlocksOf(i: nat, totalPieces: nat, pieceLength: nat, blockLength: nat, torrentLength: nat): seq<Block>
    requires pieceLength > 0 && blockLength > 0
  {
    TablePiece(i, totalPieces, pieceLength, blockLength, torrentLength, true).blocks
  }

  ghost predicate SeekRight(i: nat, k: nat, totalPieces: nat, pieceLength: nat, blockLength: nat, torrentLength: nat)
    requires 0 < pieceLength < TWO_TO_32 && blockLength > 0
    requires k < |BlocksOf(i, totalPieces, pieceLength, blockLength, torrentLength)|
  {
    var blocks := BlocksOf(i, totalPieces, pieceLength, blockLength, torrentLength);
    SeekOf(i, blocks, k) == i * pieceLength + TrueBegin(blocks, k)
  }

  /** The layouts for which the seek is right: a single piece of full blocks, or equal pieces of full blocks. */
  predicate SeekableLayout(totalPieces: nat, pieceLength: nat, blockLength: nat, torrentLength: nat)
    requires pieceLength > 0 && blockLength > 0
  {
    if totalPieces == 1 then torrentLength % blockLength == 0
    else pieceLength % blockLength == 0 && torrentLength == totalPieces * pieceLength
  }

  lemma SeekRightInFullPiece(i: nat, k: nat, n: nat, pieceLength: nat, blockLength: nat, torrentLength: nat)
    requires 0 < pieceLength < TWO_TO_32 && blockLength > 0
    requires var length := PieceLengthAt(i, n, pieceLength, torrentLength);
      length % blockLength == 0 && (i > 0 ==> length == pieceLength)
    requires k < |BlocksOf(i, n, pieceLength, blockLength, torrentLength)|
    ensures SeekRight(i, k, n, pieceLength, blockLength, torrentLength)
  {
    var length := PieceLengthAt(i, n, pieceLength, torrentLength);
    BlockShape(i, length, blockLength, k);
    SeekOfRegular(i, length, blockLength, k);
    DivMod(length, blockLength);
  }

  /** Serving reads the right bytes for every block exactly in the seekable layouts. */
  lemma SeekFindsAllIff(n: nat, pieceLength: nat, blockLength: nat, torrentLength: nat)
    requires n > 0 && 0 < pieceLength < TWO_TO_32 && blockLength > 0
    requires IsCeiling(n, torrentLength, pieceLength)
    ensures SeekFindsAll(n, pieceLength, blockLength, torrentLength)
       <==> SeekableLayout(n, pieceLength, blockLength, torrentLength)
  {
    LastPieceOf(n, pieceLength, torrentLength);
    if SeekableLayout(n, pieceLength, blockLength, torrentLength) {
      forall i, k | 0 <= i < n && 0 <= k < |BlocksOf(i, n, pieceLength, blockLength, torrentLength)|
        ensures SeekRight(i, k, n, pieceLength, blockLength, torrentLength)
      {
        SeekRightInFullPiece(i, k, n, pieceLength, blockLength, torrentLength);
      }
    } else {
      var i, k := MissoughtBlock(n, pieceLength, blockLength, torrentLength);
      assert !SeekRight(i, k, n, pieceLength, blockLength, torrentLength);
    }
  }

  lemma LastPieceOf(n: nat, pieceLength: nat, torrentLength: nat)
    requires n > 0 && pieceLength > 0 && IsCeiling(n, torrentLength, pieceLength)
    ensures LastPieceLength(torrentLength, pieceLength) == torrentLength - (n - 1) * pieceLength
  {
    var last := torrentLength - (n - 1) * pieceLength;
    MulSucc(n, pieceLength);
    if last < pieceLength {
      QuotientUnique(n - 1, last, pieceLength);
    } else {
      QuotientUnique(n, 0, pieceLength);
    }
  }

  lemma RoundedUpFits(a: nat, b: nat, d: nat)
    requires d > 0 && a < b && b % d == 0
    ensures (a / d + 1) * d <= b
  {
    DivMod(a, d);
    DivMod(b, d);
    if b / d <= a / d {
      MulMonotone(b / d, a / d, d);
    }
    MulMonotone(a / d + 1, b / d, d);
  }

  lemma NotSeekable(n: nat, pieceLength: nat, blockLength: nat, torrentLength: nat)
    requires n > 0 && pieceLength > 0 && blockLength > 0
    requires IsCeiling(n, torrentLength, pieceLength)
    requires !SeekableLayout(n, pieceLength, blockLength, torrentLength)
    ensures PieceLengthAt(0, n, pieceLength, torrentLength) % blockLength != 0
         || (n > 1 && pieceLength % blockLength == 0
             && PieceLengthAt(n - 1, n, pieceLength, torrentLength) < pieceLength)
  {
    LastPieceOf(n, pieceLength, torrentLength);
    MulSucc(n, pieceLength);
  }

  /** In any other layout some block is sought at the wrong place. */
  lemma MissoughtBlock(n: nat, pieceLength: nat, blockLength: nat, torrentLength: nat) returns (i: nat, k: nat)
    requires n > 0 && 0 < pieceLength < TWO_TO_32 && blockLength > 0
    requires IsCeiling(n, torrentLength, pieceLength)
    requires !SeekableLayout(n, pieceLength, blockLength, torrentLength)
    ensures i < n && k < |BlocksOf(i, n, pieceLength, blockLength, torrentLength)|
    ensures !SeekRight(i, k, n, pieceLength, blockLength, torrentLength)
  {
    NotSeekable(n, pieceLength, blockLength, torrentLength);
    var first := PieceLengthAt(0, n, pieceLength, torrentLength);
    if first % blockLength != 0 {
      i, k := 0, |PieceBlocks(0, first, blockLength)| - 1;
      SeekOfPartial(0, first, blockLength, pieceLength);
    } else {
      i := n - 1;
      var last := PieceLengthAt(i, n, pieceLength, torrentLength);
      if last % blockLength != 0 {
        k := |PieceBlocks(i, last, blockLength)| - 1;
        RoundedUpFits(last, pieceLength, blockLength);
        SeekOfPartial(i, last, blockLength, pieceLength);
      } else {
        k := 0;
        ShortPieceMissought(i, last, pieceLength, blockLength);
      }
    }
  }

  lemma ShortPieceMissought(i: nat, length: nat, pieceLength: nat, blockLength: nat)
    requires i > 0 && 0 < length < pieceLength < TWO_TO_32 && blockLength > 0 && length % blockLength == 0
    ensures var blocks := PieceBlocks(i, length, blockLength);
      && |blocks| > 0
      && SeekOf(i, blocks, 0) < i * pieceLength + TrueBegin(blocks, 0)
  {
    DivMod(length, blockLength);
    SeekOfRegular(i, length, blockLength, 0);
    BlockShape(i, length, blockLength, 0);
    MulStrict(length, pieceLength, i);
    assert i * length == length * i && i * pieceLength == pieceLength * i;
  }

  lemma MulAssociative(a: int, b: int, c: int)
    ensures a * b * c == a * (b * c)
  {
  }
}
