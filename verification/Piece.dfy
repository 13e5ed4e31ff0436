/** Blocks, pieces and the piece table shared by all connections. */
module Pieces {
  import opened Wrappers
  import opened Bytes

  datatype Block = Block(idx: int, pieceIdx: int, begin: nat, buff: seq<byte>, length: nat, isLastBlock: bool)
  {
    function Id(): BlockId { BlockId(pieceIdx, idx) }
  }

  /** What tells the blocks of a torrent apart. */
  datatype BlockId = BlockId(pieceIdx: int, idx: int)

  function NewBlock(blockIdx: int, pieceIdx: int, begin: nat, length: nat, buff: seq<byte>): Block {
    Block(blockIdx, pieceIdx, begin, buff, length, false)
  }

  datatype PieceStatus = Idle | Downloading | Done

  datatype Piece = Piece(idx: int, length: int, blocks: seq<Block>, status: PieceStatus,
                         downloader: string, isLastPiece: bool)
  {
    function BlockCount(): nat { |blocks| }

    predicate Downloaded() { status == Done }

    /** The block a REQUEST addresses, found by dividing by the requested length.  A zero length is a
        run-time panic of the original. */
    function GetBlockFromOffset(blockBegin: nat, blockLength: nat): Option<Block>
      requires blockLength > 0
    {
      var k := blockBegin / blockLength;
      if k >= ToUint32(|blocks|) then None else Some(blocks[k])
    }
  }

  function FullBlock(pieceIdx: int, blockIdx: nat, blockLength: nat): Block {
    NewBlock(blockIdx, pieceIdx, ToUint32(blockIdx * blockLength), ToUint32(blockLength), [])
  }

  /** The trailing short block, with the index and the offset that the original gives it. */
  function PartialBlock(pieceIdx: int, totalBlocks: nat, blockLength: nat, remaining: nat): Block {
    NewBlock(totalBlocks - 1, pieceIdx, ToUint32(totalBlocks - 1 * blockLength), ToUint32(remaining), [])
  }

  function MarkLast(blocks: seq<Block>): seq<Block>
    requires blocks != []
  {
    blocks[|blocks| - 1 := blocks[|blocks| - 1].(isLastBlock := true)]
  }

  function PieceBlocks(pieceIdx: int, pieceLength: nat, blockLength: nat): seq<Block>
    requires pieceLength > 0 && blockLength > 0
  {
    var totalBlocks, remaining := pieceLength / blockLength, pieceLength % blockLength;
    var regular := seq(totalBlocks, i requires 0 <= i => FullBlock(pieceIdx, i, blockLength));
    MarkLast(if remaining != 0
             then regular + [PartialBlock(pieceIdx, totalBlocks, blockLength, remaining)]
             else regular)
  }

  function NewPiece(pieceIdx: int, pieceLength: nat, blockLength: nat, isSeeding: bool): Piece
    requires pieceLength > 0 && blockLength > 0
  {
    Piece(pieceIdx, pieceLength, PieceBlocks(pieceIdx, pieceLength, blockLength),
          if isSeeding then Done else Idle, "", false)
  }

  /** Cuts a piece into blocks.  With a zero block length the original divides by zero, and with a zero
      piece length it indexes an empty slice. */
  method CalculateNewPiece(pieceIdx: int, pieceLength: nat, blockLength: nat, isSeeding: bool) returns (p: Piece)
    requires pieceLength > 0 && blockLength > 0
    ensures p == NewPiece(pieceIdx, pieceLength, blockLength, isSeeding)
  {
    p := Piece(pieceIdx, pieceLength, [], if isSeeding then Done else Idle, "", false);
    var totalBlocks, remainingLength := pieceLength / blockLength, pieceLength % blockLength;
    var blocks := [];
    for blockIdx := 0 to totalBlocks
      invariant blocks == seq(blockIdx, i requires 0 <= i => FullBlock(pieceIdx, i, blockLength))
    {
      blocks := blocks + [FullBlock(pieceIdx, blockIdx, blockLength)];
    }
    if remainingLength != 0 {
      blocks := blocks + [PartialBlock(pieceIdx, totalBlocks, blockLength, remainingLength)];
    }
    blocks := blocks[|blocks| - 1 := blocks[|blocks| - 1].(isLastBlock := true)];
    p := p.(blocks := blocks);
  }

  type Table = map<int, Piece>

  function Undone(t: Table): set<int> {
    set i | i in t && t[i].status != Done
  }

  ghost function UndoneAmong(t: Table, keys: set<int>): set<int>
    requires keys <= t.Keys
  {
    set i | i in keys && t[i].status != Done
  }

  lemma UndoneAmongStep(t: Table, keys: set<int>, i: int)
    requires keys <= t.Keys && i in t && i !in keys
    ensures |UndoneAmong(t, keys + {i})| == |UndoneAmong(t, keys)| + (if t[i].status != Done then 1 else 0)
  {
    var before, after := UndoneAmong(t, keys), UndoneAmong(t, keys + {i});
    if t[i].status != Done {
      assert after == before + {i};
    } else {
      assert after == before;
    }
  }

  predicate AllDone(t: Table) {
    forall i :: i in t ==> t[i].status == Done
  }

  ghost function Choose<T>(s: set<T>): (x: T)
    requires s != {}
    ensures x in s
  {
    var x :| x in s;
    x
  }

  /** Go visits the keys of a map in no particular order. */
  method NextKey<T>(keys: set<T>) returns (x: T)
    requires keys != {}
    ensures x in keys
  {
    x :| x in keys;
  }

  /** The largest index of the table, zero when there is none above it. */
  ghost function MaxIdx(keys: set<int>): (m: int)
    ensures m >= 0
    ensures forall k :: k in keys ==> k <= m
    ensures m == 0 || m in keys
  {
    if keys == {} then 0
    else
      var k := Choose(keys);
      assert keys == (keys - {k}) + {k};
      var rest := MaxIdx(keys - {k});
      if k > rest then k else rest
  }

  function Reserve(t: Table, i: int, peerId: string): Table
    requires i in t
  {
    t[i := t[i].(status := Downloading, downloader := peerId)]
  }

  function Finish(t: Table, i: int): Table
    requires i in t
  {
    t[i := t[i].(status := Done)]
  }

  /** The blocks of pieces `0..n` in index order. */
  function BlocksUpTo(t: Table, n: nat): seq<Block>
    requires forall i :: 0 <= i < n ==> i in t
  {
    if n == 0 then [] else BlocksUpTo(t, n - 1) + t[n - 1].blocks
  }

  class SafePieces {
    var data: map<int, Piece>
    /** The pieces reserved so far, oldest first. */
    ghost var reservations: seq<int>

    constructor ()
      ensures data == map[] && reservations == []
    {
      data := map[];
      reservations := [];
    }

    method Put(p: Piece)
      modifies this
      ensures data == old(data)[p.idx := p] && reservations == old(reservations)
    {
      data := data[p.idx := p];
    }

    /** Atomic test-and-set under the table's mutex; an index outside the table is a nil dereference. */
    method TryToReserve(pieceIdx: int, peerId: string) returns (ok: bool)
      requires pieceIdx in data
      modifies this
      ensures ok == (old(data)[pieceIdx].status == Idle)
      ensures data == if ok then Reserve(old(data), pieceIdx, peerId) else old(data)
      ensures reservations == if ok then old(reservations) + [pieceIdx] else old(reservations)
    {
      if data[pieceIdx].status != Idle {
        return false;
      }
      data := data[pieceIdx := data[pieceIdx].(status := Downloading)];
      data := data[pieceIdx := data[pieceIdx].(downloader := peerId)];
      reservations := reservations + [pieceIdx];
      return true;
    }

    method MarkAsDone(pieceIdx: int)
      requires pieceIdx in data
      modifies this
      ensures data == Finish(old(data), pieceIdx) && reservations == old(reservations)
    {
      data := data[pieceIdx := data[pieceIdx].(status := Done)];
    }

    method SetAsLastPiece(pieceIdx: int)
      requires pieceIdx in data
      modifies this
      ensures data == old(data)[pieceIdx := old(data)[pieceIdx].(isLastPiece := true)]
      ensures reservations == old(reservations)
    {
      data := data[pieceIdx := data[pieceIdx].(isLastPiece := true)];
    }

    method TotalUndonePiecesLeft() returns (count: nat)
      ensures count == |Undone(data)|
    {
      count := 0;
      var todo := data.Keys;
      ghost var seen: set<int> := {};
      while todo != {}
        invariant seen !! todo && seen + todo == data.Keys
        invariant count == |UndoneAmong(data, seen)|
        decreases todo
      {
        var i := NextKey(todo);
        UndoneAmongStep(data, seen, i);
        todo := todo - {i};
        seen := seen + {i};
        if data[i].status != Done {
          count := count + 1;
        }
      }
      assert UndoneAmong(data, seen) == Undone(data);
    }

    method MaxPieceIdx() returns (max: int)
      ensures max == MaxIdx(data.Keys)
    {
      max := 0;
      var todo := data.Keys;
      while todo != {}
        invariant todo <= data.Keys && max >= 0 && (max == 0 || max in data.Keys)
        invariant forall k :: k in data.Keys - todo ==> k <= max
        decreases todo
      {
        var k := NextKey(todo);
        assert data.Keys - (todo - {k}) == (data.Keys - todo) + {k};
        todo := todo - {k};
        if k > max {
          max := k;
        }
      }
      assert data.Keys - todo == data.Keys;
    }

    method AllBlocks() returns (blocks: seq<Block>)
      requires forall i :: 0 <= i < |data| ==> i in data
      ensures blocks == BlocksUpTo(data, |data|)
    {
      blocks := [];
      for i := 0 to |data|
        invariant blocks == BlocksUpTo(data, i)
      {
        blocks := blocks + data[i].blocks;
      }
    }
  }
}
