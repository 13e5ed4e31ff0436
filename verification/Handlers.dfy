/** The handlers as they update a connection, its requester and the shared files in place, proved against
    the step functions of the protocol. */
module Handlers {
  import opened Wrappers
  import opened Bytes
  import opened Pieces
  import opened SliceUtil
  import opened PeerMessages
  import BitfieldMessages
  import opened FileInfos
  import opened Protocol

  /** How a handler's call ends. */
  datatype Ending = Returned | Failed | Panicked | Blocked

  ghost predicate Ends<T>(end: Ending, outcome: Outcome<T>, before: T, after: T) {
    match outcome
    case Handled(state) => end == Returned && after == state
    case Rejected => end == Failed && after == before
    case Crashed => end == Panicked
    case Stuck => end == Blocked
  }

  /** The number of blocks of the first idle piece of a queue, zero if there is none. */
  function RequestedCount(table: Table, queue: seq<int>): nat {
    match NextIdle(table, queue)
    case Reserved(_, i, _) => |table[i].blocks|
    case _ => 0
  }

  class BlockRequester {
    const totalNumOfBlocks: int
    var blocksLeft: int
    var data: map<int, Channel>
    /** The requests whose time-out has neither fired nor been called off, by block index. */
    var waiting: map<int, Block>

    function View(): Requester
      reads this
    {
      Requester(totalNumOfBlocks, blocksLeft, data, waiting)
    }

    constructor (totalNumOfBlocks: nat)
      ensures View() == NewRequester(totalNumOfBlocks)
    {
      this.totalNumOfBlocks := totalNumOfBlocks;
      blocksLeft := totalNumOfBlocks;
      data := map[];
      waiting := map[];
    }

    method Reset()
      modifies this`blocksLeft
      ensures View() == old(View()).(blocksLeft := totalNumOfBlocks)
    {
      blocksLeft := totalNumOfBlocks;
    }

    /** `request`: a fresh channel, a REQUEST message to be written to the connection, and a time-out
        waiting on the channel. */
    method Request(block: Block) returns (requestPeerMsg: PeerMsg)
      modifies this`data, this`waiting
      ensures View() == RequestOne(old(View()), block)
      ensures requestPeerMsg == BuildPeerRequestMsg(block)
    {
      data := data[block.idx := Open];
      requestPeerMsg := BuildPeerRequestMsg(block);
      waiting := waiting[block.idx := block];
    }

    /** `onBlockReceive`. */
    method OnBlockReceive(block: Block) returns (end: Ending)
      modifies this
      ensures end == if block.idx !in old(data) then Blocked
                     else if old(data)[block.idx] == Closed then Panicked else Returned
      ensures end == Returned ==> View() == Receive(old(View()), block.idx)
    {
      if block.idx !in data {
        return Blocked;
      }
      if data[block.idx] == Closed {
        return Panicked;
      }
      data := data[block.idx := Closed];
      waiting := waiting - {block.idx};
      blocksLeft := blocksLeft - 1;
      return Returned;
    }
  }

  class PeerConnection {
    const fileInfo: FileInfo
    /** The identity of the peer at the other end, as written into reserved pieces. */
    const peerId: string
    var piecesToDownloadQueue: seq<int>
    var blockRequester: BlockRequester?
    var misfires: nat
    var isWeak: bool
    /** The REQUEST messages written to the connection. */
    var sent: seq<PeerMsg>
    ghost var announced: seq<int>
    ghost var inFlight: set<int>
    ghost var owed: multiset<BlockId>
    ghost var repeats: nat

    ghost function View(): Conn
      reads this, blockRequester
    {
      Conn(peerId, piecesToDownloadQueue, if blockRequester == null then None else Some(blockRequester.View()),
           misfires, isWeak, sent, announced, inFlight, owed, repeats)
    }

    ghost function SharedView(): Shared
      reads fileInfo, fileInfo.pieces
    {
      Shared(fileInfo.pieces.data, fileInfo.View(), fileInfo.pieces.reservations, fileInfo.saved,
             fileInfo.finalizations)
    }

    ghost function LocalView(): Local
      reads this, blockRequester, fileInfo, fileInfo.pieces
    {
      Local(SharedView(), View())
    }

    constructor (fileInfo: FileInfo, peerId: string)
      ensures this.fileInfo == fileInfo && View() == NewConn(peerId) && blockRequester == null
    {
      this.fileInfo := fileInfo;
      this.peerId := peerId;
      piecesToDownloadQueue := [];
      blockRequester := null;
      misfires := 0;
      isWeak := false;
      sent := [];
      announced := [];
      inFlight := {};
      owed := multiset{};
      repeats := 0;
    }

    /** `RequestNextPiece`: dequeues pieces until one can be reserved, and requests its blocks. */
    method RequestNextPiece() returns (end: Ending, blockCount: nat)
      requires blockRequester != null
      modifies this, blockRequester, fileInfo.pieces
      ensures blockRequester == old(blockRequester)
      ensures Ends(end, RequestNext(old(LocalView()), old(blockRequester.View())), old(LocalView()), LocalView())
      ensures end == Returned ==>
        blockCount == RequestedCount(old(fileInfo.pieces.data), old(piecesToDownloadQueue))
    {
      while true
        invariant blockRequester == old(blockRequester) && blockRequester != null
        invariant LocalView() == old(LocalView()).(conn := old(View()).(queue := piecesToDownloadQueue))
        invariant RequestedCount(fileInfo.pieces.data, piecesToDownloadQueue)
               == RequestedCount(old(fileInfo.pieces.data), old(piecesToDownloadQueue))
        invariant RequestNext(LocalView(), blockRequester.View())
               == RequestNext(old(LocalView()), old(blockRequester.View()))
        decreases |piecesToDownloadQueue|
      {
        if |piecesToDownloadQueue| == 0 {
          return Returned, 0;
        }
        var dequeuedPieceIdx := piecesToDownloadQueue[0];
        if dequeuedPieceIdx !in fileInfo.pieces.data {
          return Panicked, 0;
        }
        piecesToDownloadQueue := piecesToDownloadQueue[1..];
        var ok := fileInfo.pieces.TryToReserve(dequeuedPieceIdx, peerId);
        if !ok {
          continue;
        }
        RequestPiece(dequeuedPieceIdx);
        return Returned, |fileInfo.pieces.data[dequeuedPieceIdx].blocks|;
      }
    }

    /** A piece has been reserved: all its blocks are requested. */
    method RequestPiece(pieceIdx: int)
      requires blockRequester != null && pieceIdx in fileInfo.pieces.data
      modifies this`inFlight, this`sent, this`owed, blockRequester
      ensures var blocks := fileInfo.pieces.data[pieceIdx].blocks;
        View() == SendRequests(old(View()).(requester := Some(RequestAll(old(blockRequester.View()), blocks)),
                                            inFlight := old(inFlight) + {pieceIdx}), blocks)
    {
      inFlight := inFlight + {pieceIdx};
      RequestBlocks(fileInfo.pieces.data[pieceIdx].blocks);
    }

    /** One request for each block of a reserved piece. */
    method RequestBlocks(blocks: seq<Block>)
      requires blockRequester != null
      modifies this`sent, this`owed, blockRequester
      ensures blockRequester.View() == RequestAll(old(blockRequester.View()), blocks)
      ensures sent == old(sent) + Requests(blocks) && owed == old(owed) + multiset(Ids(blocks))
    {
      for i := 0 to |blocks|
        invariant blockRequester.View() == RequestAll(old(blockRequester.View()), blocks[..i])
        invariant sent == old(sent) + Requests(blocks[..i])
        invariant owed == old(owed) + multiset(Ids(blocks[..i]))
      {
        OneMoreRequest(old(blockRequester.View()), blocks, i);
        var requestPeerMsg := blockRequester.Request(blocks[i]);
        sent := sent + [requestPeerMsg];
        owed := owed + multiset{blocks[i].Id()};
      }
      assert blocks[..|blocks|] == blocks;
    }

    /** Replaces the requester by one that counts the blocks of a piece, and starts downloading. */
    method StartDownload(pieceIdx: int) returns (end: Ending)
      requires pieceIdx in fileInfo.pieces.data
      modifies this, fileInfo.pieces
      ensures blockRequester != null && fresh(blockRequester)
      ensures Ends(end, RequestNext(old(LocalView()), NewRequester(old(fileInfo.pieces.data)[pieceIdx].BlockCount())),
                   old(LocalView()), LocalView())
    {
      var count := fileInfo.pieces.data[pieceIdx].BlockCount();
      blockRequester := new BlockRequester(count);
      var blockCount;
      end, blockCount := RequestNextPiece();
    }

    /** The common end of the two announcement handlers: the queue grows to `queue`, and if it was empty
        before, downloading starts with its first piece. */
    method GrowQueue(queue: seq<int>, ghost news: seq<int>) returns (end: Ending)
      requires |queue| > 0
      modifies this, fileInfo.pieces
      ensures blockRequester == old(blockRequester) || fresh(blockRequester)
      ensures Ends(end, Enqueue(old(LocalView()), queue, news), old(LocalView()), LocalView())
    {
      var wasQueueEmpty := |piecesToDownloadQueue| == 0;
      piecesToDownloadQueue := queue;
      announced := announced + news;
      if wasQueueEmpty {
        var pieceIdx := piecesToDownloadQueue[0];
        if pieceIdx !in fileInfo.pieces.data {
          return Panicked;
        }
        end := StartDownload(pieceIdx);
        return end;
      }
      return Returned;
    }

    method HandleHave(payload: seq<byte>) returns (end: Ending)
      modifies this, fileInfo.pieces
      ensures blockRequester == old(blockRequester) || fresh(blockRequester)
      ensures Ends(end, HaveStep(old(LocalView()), payload), old(LocalView()), LocalView())
    {
      if |payload| < 4 {
        return Panicked;
      }
      var pieceIdx := Uint32(payload);
      var has := IntSliceHas(piecesToDownloadQueue, pieceIdx);
      if has {
        return Returned;
      }
      end := GrowQueue(piecesToDownloadQueue + [pieceIdx], [pieceIdx]);
    }

    method HandleBitfield(payload: seq<byte>) returns (end: Ending)
      modifies this, fileInfo.pieces
      ensures blockRequester == old(blockRequester) || fresh(blockRequester)
      ensures Ends(end, BitfieldStep(old(LocalView()), payload), old(LocalView()), LocalView())
    {
      var max := fileInfo.pieces.MaxPieceIdx();
      var pieceIndices := BitfieldMessages.GetPieceIndices(payload, max);
      if !pieceIndices.Ok? {
        return if pieceIndices.Err? then Failed else Panicked;
      }
      var indices := pieceIndices.value;
      if |indices| == 0 {
        return Returned;
      }
      MergedNotEmpty(piecesToDownloadQueue, indices);
      var queue := IntSliceUniqueMergeSlices(piecesToDownloadQueue, indices);
      end := GrowQueue(queue, Newcomers(old(piecesToDownloadQueue), indices));
    }

    method HandlePiece(payload: seq<byte>) returns (end: Ending)
      modifies this, blockRequester, fileInfo, fileInfo.pieces
      ensures blockRequester == old(blockRequester)
      ensures Ends(end, PieceStep(old(LocalView()), payload), old(LocalView()), LocalView())
    {
      var b := ReceivedBlock(payload);
      if b.Err? {
        return Failed;
      }
      if blockRequester == null {
        return Panicked;
      }
      end := AcceptBlock(b.value);
      if end != Returned {
        return end;
      }
      RequesterIsReplaced(Accept(old(LocalView()), b.value), blockRequester.View(), b.value.pieceIdx);
      if blockRequester.blocksLeft == 0 {
        end := FinishPiece(b.value.pieceIdx);
      }
    }

    /** The part of the handler that counts the block and saves it. */
    method AcceptBlock(b: Block) returns (end: Ending)
      requires blockRequester != null
      modifies this`owed, blockRequester, fileInfo`blocksDir, fileInfo`saved
      ensures end == if b.idx !in old(blockRequester.data) then Blocked
                     else if old(blockRequester.data)[b.idx] == Closed then Panicked else Returned
      ensures end == Returned ==>
        blockRequester.View() == Receive(old(blockRequester.View()), b.idx)
        && LocalView() == WithRequester(Accept(old(LocalView()), b), blockRequester.View())
    {
      end := blockRequester.OnBlockReceive(b);
      if end != Returned {
        return end;
      }
      fileInfo.SaveBlock(b);
      owed := owed - multiset{b.Id()};
    }

    /** The part of the handler that follows the last block of a piece. */
    method FinishPiece(pieceIdx: int) returns (end: Ending)
      requires blockRequester != null
      modifies this, blockRequester, fileInfo, fileInfo.pieces
      ensures blockRequester == old(blockRequester)
      ensures Ends(end, CompletePiece(old(LocalView()), old(blockRequester.View()), pieceIdx),
                   old(LocalView()), LocalView())
    {
      blockRequester.Reset();
      if pieceIdx !in fileInfo.pieces.data {
        return Panicked;
      }
      fileInfo.pieces.MarkAsDone(pieceIdx);
      inFlight := inFlight - {pieceIdx};
      var piecesLeft := fileInfo.pieces.TotalUndonePiecesLeft();
      if piecesLeft != 0 {
        var blockCount;
        end, blockCount := RequestNextPiece();
      } else {
        fileInfo.DefaultFinalizeFunc();
        end := Returned;
      }
    }

    /** The time-out of a waiting request: it is sent again, or the peer is given up as weak. */
    method OnMisfire(block: int) returns (end: Ending)
      modifies this, blockRequester
      ensures blockRequester == old(blockRequester)
      ensures Ends(end, MisfireStep(old(LocalView()), block), old(LocalView()), LocalView())
    {
      if blockRequester == null || block !in blockRequester.waiting {
        return Failed;
      }
      misfires := misfires + 1;
      if misfires > ALLOWED_MISFIRES {
        isWeak := true;
        blockRequester.waiting := blockRequester.waiting - {block};
        return Returned;
      }
      repeats := repeats + 1;
      RequestAgain(block);
      return Returned;
    }

    /** A block that waits is requested once more, with a fresh channel. */
    method RequestAgain(block: int)
      requires blockRequester != null && block in blockRequester.waiting
      modifies this`sent, this`owed, blockRequester`data
      ensures var r := old(blockRequester.View());
        View() == SendRequests(old(View()).(requester := Some(r.(data := r.data[block := Open]))), [r.waiting[block]])
    {
      var targetBlock := blockRequester.waiting[block];
      blockRequester.data := blockRequester.data[block := Open];
      SendRequest(targetBlock);
    }

    /** A REQUEST for one block is written to the connection. */
    method SendRequest(b: Block)
      modifies this`sent, this`owed
      ensures View() == SendRequests(old(View()), [b])
    {
      sent := sent + [BuildPeerRequestMsg(b)];
      owed := owed + multiset{b.Id()};
      assert Ids([b]) == [b.Id()];
    }

    /** The dispatch on the kind of a delivery. */
    method Handle(e: Event) returns (end: Ending)
      modifies this, blockRequester, fileInfo, fileInfo.pieces
      ensures blockRequester == old(blockRequester) || fresh(blockRequester)
      ensures Ends(end, LocalStep(old(LocalView()), e), old(LocalView()), LocalView())
    {
      match e {
        case HaveMsg(_, payload) => end := HandleHave(payload);
        case BitfieldMsg(_, payload) => end := HandleBitfield(payload);
        case PieceMsg(_, payload) => end := HandlePiece(payload);
        case Misfire(_, k) => end := OnMisfire(k);
      }
    }

    /** `handlePeerRequestMessage`: the message to be sent back. */
    method HandleRequest(payload: seq<byte>) returns (r: Result<PeerMsg>)
      ensures r == Answer(fileInfo.pieces.data, fileInfo.View(), payload)
    {
      var b := RequestedBlock(payload);
      if !b.Ok? {
        return if b.Err? then Err(b.error) else Panic;
      }
      var full := fileInfo.GetBlock(b.value.pieceIdx, b.value.begin, b.value.length);
      if full.Err? {
        return Err(full.error);
      }
      if full.Panic? || full.value.None? {
        return Panic;
      }
      return Ok(BuildPeerPieceMsg(full.value.value));
    }
  }

  lemma OneMoreRequest(r: Requester, blocks: seq<Block>, i: nat)
    requires i < |blocks|
    ensures RequestAll(r, blocks[..i + 1]) == RequestOne(RequestAll(r, blocks[..i]), blocks[i])
    ensures Requests(blocks[..i + 1]) == Requests(blocks[..i]) + [BuildPeerRequestMsg(blocks[i])]
    ensures multiset(Ids(blocks[..i + 1])) == multiset(Ids(blocks[..i])) + multiset{blocks[i].Id()}
  {
    assert blocks[..i + 1][..i] == blocks[..i];
    assert Ids(blocks[..i + 1]) == Ids(blocks[..i]) + [blocks[i].Id()];
  }

  function WithRequester(l: Local, r: Requester): Local {
    l.(conn := l.conn.(requester := Some(r)))
  }

  /** What follows the last block of a piece depends on the requester it is given, not on the one before. */
  lemma RequesterIsReplaced(l: Local, r: Requester, pieceIdx: int)
    ensures CompletePiece(WithRequester(l, r), r, pieceIdx) == CompletePiece(l, r, pieceIdx)
  {
  }
}
