/** Each kind of step keeps the invariant. */
module ProtocolSteps {
  import opened Wrappers
  import opened Bytes
  import opened Pieces
  import opened SliceUtil
  import opened Cardinality
  import opened Bitfields
  import opened BitfieldMessages
  import opened Addressing
  import opened BlockNames
  import opened FileInfos
  import opened Assembly
  import opened Serving
  import opened Protocol
  import opened ProtocolInvariant

  // ---------- reserving and requesting a piece ----------

  /** A requester that is about to ask for a whole piece of `n` blocks. */
  ghost predicate Ready(r: Requester, n: nat) {
    && r.total == n && r.blocksLeft == n
    && (forall k :: k in r.data ==> 0 <= k < n)
    && AtRest(r)
  }

  lemma IdxsOfUniform(t: Torrent, p: int, blocks: seq<Block>)
    requires t.Valid() && 0 <= p < t.pieces && t.UniformBlocks(p, blocks)
    ensures BlockIdxs(blocks) == Range(t.blocksPerPiece)
  {
    forall k | 0 <= k < t.blocksPerPiece
      ensures k in BlockIdxs(blocks)
    {
      assert blocks[k] in blocks && blocks[k].idx == k;
    }
  }

  /** The channels of `idxs` have been opened and their requests wait; nothing else has changed. */
  ghost predicate Opened(r: Requester, idxs: set<int>, r': Requester) {
    && r'.total == r.total && r'.blocksLeft == r.blocksLeft
    && (forall k :: k in r'.data <==> k in r.data || k in idxs)
    && (forall k :: k in r'.data ==> r'.data[k] == if k in idxs then Open else r.data[k])
    && (forall k :: k in r'.waiting <==> k in r.waiting || k in idxs)
  }

  lemma {:induction false} RequestAllOpens(r: Requester, blocks: seq<Block>)
    ensures Opened(r, BlockIdxs(blocks), RequestAll(r, blocks))
    ensures forall k :: k in BlockIdxs(blocks) ==>
      k in RequestAll(r, blocks).waiting && RequestAll(r, blocks).waiting[k] in blocks
      && RequestAll(r, blocks).waiting[k].idx == k
  {
    if |blocks| > 0 {
      var front, last := blocks[..|blocks| - 1], blocks[|blocks| - 1];
      RequestAllOpens(r, front);
      assert blocks == front + [last];
      assert BlockIdxs(blocks) == BlockIdxs(front) + {last.idx};
    }
  }

  lemma RequestAllCounts(t: Torrent, p: int, blocks: seq<Block>, r: Requester)
    requires t.Valid() && 0 <= p < t.pieces && t.UniformBlocks(p, blocks) && Ready(r, t.blocksPerPiece)
    ensures var r', n := RequestAll(r, blocks), t.blocksPerPiece;
      && Counting(r', n) && OpenBlocks(r') == Range(n) == r'.waiting.Keys
      && forall k :: k in r'.waiting ==> r'.waiting[k].Id() == BlockId(p, k)
  {
    var r' := RequestAll(r, blocks);
    IdxsOfUniform(t, p, blocks);
    RequestAllOpens(r, blocks);
    OpenedAll(r, t.blocksPerPiece, r');
    forall k | k in r'.waiting
      ensures r'.waiting[k].Id() == BlockId(p, k)
    {
      var j :| 0 <= j < |blocks| && blocks[j] == r'.waiting[k];
    }
  }

  lemma OpenedAll(r: Requester, n: nat, r': Requester)
    requires n > 0 && Ready(r, n) && Opened(r, Range(n), r')
    ensures Counting(r', n) && OpenBlocks(r') == Range(n) == r'.waiting.Keys
  {
    assert OpenBlocks(r') == Range(n);
    assert r'.waiting.Keys == Range(n);
  }

  lemma ReserveKeepsShared(t: Torrent, s: Shared, i: int, peerId: string)
    requires t.Valid() && SharedOk(t, s) && i in s.table && s.table[i].status == Idle
    ensures SharedOk(t, s.(table := Reserve(s.table, i, peerId), reservations := s.reservations + [i]))
    ensures !AllDone(Reserve(s.table, i, peerId))
  {
    var table := Reserve(s.table, i, peerId);
    assert s.table[i].status == Idle && table[i].status == Downloading;
    assert i !in s.reservations;
  }

  lemma ReserveKeepsQueue(table: Table, c: Conn, skipped: seq<int>, i: int, rest: seq<int>, peerId: string, c': Conn)
    requires QueueOk(table, c) && c.queue == skipped + [i] + rest && AllTaken(table, skipped)
    requires i in table && c'.queue == rest && c'.announced == c.announced
    ensures QueueOk(Reserve(table, i, peerId), c')
  {
    assert c.queue[|skipped| + 1..] == rest;
    assert c.announced[|c.announced| - |rest|..] == rest;
    forall j | 0 <= j < |rest|
      ensures rest[j] == c.queue[|skipped| + 1 + j]
    {
    }
    forall x | x in rest
      ensures x in c.queue
    {
    }
    forall x | x in c.announced && Reserve(table, i, peerId)[x].status == Idle
      ensures x in rest
    {
      assert x in c.queue && x !in skipped && x != i;
    }
  }

  lemma ReserveMoves(t: Torrent, s: Shared, i: int, peerId: string)
    requires t.Valid() && i in s.table && s.table[i].status == Idle
    ensures Moves(t, s, s.(table := Reserve(s.table, i, peerId), reservations := s.reservations + [i]), {}, {i})
  {
  }

  lemma ReserveForOk(t: Torrent, l: Local, r: Requester, skipped: seq<int>, i: int, rest: seq<int>)
    requires t.Valid() && SharedOk(t, l.shared) && QueueOk(l.shared.table, l.conn)
    requires l.conn.inFlight == {} && Ready(r, t.blocksPerPiece) && MisfiresOk(l.conn.(requester := Some(r)))
    requires l.conn.queue == skipped + [i] + rest && AllTaken(l.shared.table, skipped)
    requires i in l.shared.table && l.shared.table[i].status == Idle
    ensures LocalOk(t, ReserveFor(l, r, i, rest))
    ensures Moves(t, l.shared, ReserveFor(l, r, i, rest).shared, {}, {i})
    ensures ReserveFor(l, r, i, rest).conn.inFlight == {i}
  {
    var l' := ReserveFor(l, r, i, rest);
    assert l'.conn.inFlight == {i};
    ReserveKeepsShared(t, l.shared, i, l.conn.peerId);
    ReserveKeepsQueue(l.shared.table, l.conn, skipped, i, rest, l.conn.peerId, l'.conn);
    ReserveMoves(t, l.shared, i, l.conn.peerId);
    RequestAllCounts(t, i, l.shared.table[i].blocks, r);
    NothingReceivedYet(t, l, l', i);
  }

  lemma NothingReceivedYet(t: Torrent, l: Local, l': Local, i: int)
    requires t.Valid() && SharedOk(t, l.shared) && i in l.shared.table && l.shared.table[i].status == Idle
    requires l'.conn.inFlight == {i} && RequesterOk(t, l'.conn)
    requires OpenBlocks(l'.conn.requester.value) == Range(t.blocksPerPiece)
    requires l'.shared.files == l.shared.files
    ensures ReceivedSaved(t, l'.shared.files.blocksDir, l'.conn)
  {
    assert !AllDone(l.shared.table);
    forall k | 0 <= k < t.blocksPerPiece
      ensures l'.conn.requester.value.data[k] == Open && BlockName(i, k) !in l'.shared.files.blocksDir
    {
      assert k in OpenBlocks(l'.conn.requester.value);
      assert t.HasBlock(i, k);
    }
  }

  lemma EmptiedQueueOk(t: Torrent, l: Local, r: Requester)
    requires t.Valid() && SharedOk(t, l.shared) && QueueOk(l.shared.table, l.conn)
    requires l.conn.inFlight == {} && AtRest(r) && MisfiresOk(l.conn.(requester := Some(r)))
    requires AllTaken(l.shared.table, l.conn.queue)
    ensures LocalOk(t, l.(conn := l.conn.(queue := [], requester := Some(r))))
    ensures Moves(t, l.shared, l.shared, {}, {})
  {
  }

  /** `RequestNextPiece` on a connection with nothing in flight. */
  lemma RequestNextOk(t: Torrent, l: Local, r: Requester)
    requires t.Valid() && SharedOk(t, l.shared) && QueueOk(l.shared.table, l.conn)
    requires l.conn.inFlight == {} && Ready(r, t.blocksPerPiece) && MisfiresOk(l.conn.(requester := Some(r)))
    ensures RequestNext(l, r).Handled?
    ensures LocalOk(t, RequestNext(l, r).value)
    ensures Moves(t, l.shared, RequestNext(l, r).value.shared, {}, RequestNext(l, r).value.conn.inFlight)
  {
    NextIdleLaws(l.shared.table, l.conn.queue);
    QueuedIsAnnounced(l.conn);
    match NextIdle(l.shared.table, l.conn.queue)
    case Unknown(x) =>
      assert false;
    case Exhausted =>
      EmptiedQueueOk(t, l, r);
    case Reserved(skipped, i, rest) =>
      ReserveForOk(t, l, r, skipped, i, rest);
  }

  // ---------- announcements ----------

  lemma QueuedIsAnnounced(c: Conn)
    requires EndsWith(c.announced, c.queue)
    ensures forall x :: x in c.queue ==> x in c.announced
  {
    forall x | x in c.queue
      ensures x in c.announced
    {
      assert x in c.announced[|c.announced| - |c.queue|..];
    }
  }

  lemma GrownQueueOk(table: Table, c: Conn, queue: seq<int>, news: seq<int>)
    requires QueueOk(table, c) && NoDuplicates(queue) && queue == c.queue + news
    requires forall x :: x in news ==> x in table
    ensures QueueOk(table, c.(queue := queue, announced := c.announced + news))
  {
    var announced, d := c.announced + news, |c.announced| - |c.queue|;
    assert c.announced == c.announced[..d] + c.queue;
    assert announced == c.announced[..d] + queue;
    assert announced[|announced| - |queue|..] == queue;
  }

  lemma EnqueueLaterOk(t: Torrent, l: Local, queue: seq<int>, news: seq<int>)
    requires t.Valid() && LocalOk(t, l) && |l.conn.queue| > 0 && NoDuplicates(queue) && queue == l.conn.queue + news
    requires forall x :: x in news ==> x in l.shared.table
    ensures LocalOk(t, l.(conn := l.conn.(queue := queue, announced := l.conn.announced + news)))
    ensures Moves(t, l.shared, l.shared, l.conn.inFlight, l.conn.inFlight)
  {
    var c := l.conn.(queue := queue, announced := l.conn.announced + news);
    GrownQueueOk(l.shared.table, l.conn, queue, news);
    assert ReceivedSaved(t, l.shared.files.blocksDir, c);
  }

  lemma EnqueueFirstOk(t: Torrent, l: Local, news: seq<int>)
    requires t.Valid() && LocalOk(t, l) && |l.conn.queue| == 0 && l.conn.inFlight == {}
    requires |news| > 0 && NoDuplicates(news)
    requires forall x :: x in news ==> x in l.shared.table
    ensures var outcome := Enqueue(l, news, news);
      outcome.Handled? && LocalOk(t, outcome.value)
      && Moves(t, l.shared, outcome.value.shared, {}, outcome.value.conn.inFlight)
  {
    assert news == l.conn.queue + news;
    var c, first := l.conn.(queue := news, announced := l.conn.announced + news), news[0];
    assert first in news;
    var r := NewRequester(l.shared.table[first].BlockCount());
    GrownQueueOk(l.shared.table, l.conn, news, news);
    FreshRequesterReady(t, l, first);
    NothingWaiting(c, r);
    RequestNextOk(t, Local(l.shared, c), r);
    assert Enqueue(l, news, news) == RequestNext(Local(l.shared, c), r);
  }

  /** Announced pieces are queued; if nothing is in flight the first of them that is idle is requested. */
  lemma EnqueueOk(t: Torrent, l: Local, queue: seq<int>, news: seq<int>)
    requires t.Valid() && LocalOk(t, l) && |queue| > 0 && NoDuplicates(queue) && queue == l.conn.queue + news
    requires forall x :: x in news ==> x in l.shared.table
    requires |l.conn.queue| > 0 || l.conn.inFlight == {}
    ensures Enqueue(l, queue, news).Handled?
    ensures LocalOk(t, Enqueue(l, queue, news).value)
    ensures Moves(t, l.shared, Enqueue(l, queue, news).value.shared, l.conn.inFlight,
                  Enqueue(l, queue, news).value.conn.inFlight)
  {
    if |l.conn.queue| > 0 {
      EnqueueLaterOk(t, l, queue, news);
    } else {
      assert queue == news;
      EnqueueFirstOk(t, l, news);
    }
  }

  lemma FreshRequesterReady(t: Torrent, l: Local, p: int)
    requires t.Valid() && SharedOk(t, l.shared) && p in l.shared.table
    ensures Ready(NewRequester(l.shared.table[p].BlockCount()), t.blocksPerPiece)
  {
    assert t.UniformBlocks(p, l.shared.table[p].blocks);
  }

  lemma NothingWaiting(c: Conn, r: Requester)
    requires MisfiresOk(c) && AtRest(r)
    ensures MisfiresOk(c.(requester := Some(r)))
  {
    assert r.waiting.Keys == {};
  }

  lemma HaveOk(t: Torrent, l: Local, payload: seq<byte>)
    requires t.Valid() && LocalOk(t, l)
    requires |payload| >= 4 && Uint32(payload) in l.shared.table
    requires |l.conn.queue| > 0 || l.conn.inFlight == {}
    ensures HaveStep(l, payload).Handled?
    ensures LocalOk(t, HaveStep(l, payload).value)
    ensures Moves(t, l.shared, HaveStep(l, payload).value.shared, l.conn.inFlight,
                  HaveStep(l, payload).value.conn.inFlight)
  {
    var i := Uint32(payload);
    if i !in l.conn.queue {
      EnqueueOk(t, l, l.conn.queue + [i], [i]);
    }
  }

  /** The table's indices run without gaps up to the largest. */
  lemma LargestIndex(t: Torrent, table: Table)
    requires t.Valid() && TableOk(t, table)
    ensures MaxIdx(table.Keys) == t.pieces - 1
  {
    assert t.pieces - 1 in table;
  }

  lemma BitfieldOk(t: Torrent, l: Local, payload: seq<byte>)
    requires t.Valid() && LocalOk(t, l)
    requires PieceIndices(payload, MaxIdx(l.shared.table.Keys)).Ok?
    requires |PieceIndices(payload, MaxIdx(l.shared.table.Keys)).value| == 0
          || |l.conn.queue| > 0 || l.conn.inFlight == {}
    ensures BitfieldStep(l, payload).Handled?
    ensures LocalOk(t, BitfieldStep(l, payload).value)
    ensures Moves(t, l.shared, BitfieldStep(l, payload).value.shared, l.conn.inFlight,
                  BitfieldStep(l, payload).value.conn.inFlight)
  {
    var max := MaxIdx(l.shared.table.Keys);
    var indices := PieceIndices(payload, max).value;
    if |indices| > 0 {
      LargestIndex(t, l.shared.table);
      IndicesListTheSet(BitsOfPayload(payload), max);
      UniqueMergeLaws(l.conn.queue, indices);
      MergedNotEmpty(l.conn.queue, indices);
      EnqueueOk(t, l, UniqueMerge(l.conn.queue, indices), Newcomers(l.conn.queue, indices));
    }
  }

  // ---------- misfires ----------

  lemma MisfireOk(t: Torrent, l: Local, k: int)
    requires t.Valid() && LocalOk(t, l) && k in Waiting(l.conn)
    ensures MisfireStep(l, k).Handled?
    ensures LocalOk(t, MisfireStep(l, k).value)
    ensures Moves(t, l.shared, MisfireStep(l, k).value.shared, l.conn.inFlight,
                  MisfireStep(l, k).value.conn.inFlight)
  {
    var l', r := MisfireStep(l, k).value, l.conn.requester.value;
    assert k in r.waiting && l.conn.inFlight != {};
    assert k in OpenBlocks(r);
    assert OpenBlocks(l'.conn.requester.value) == OpenBlocks(r);
    assert forall p, k :: t.HasBlock(p, k) && p in l.conn.inFlight ==>
      l'.conn.requester.value.data[k] == r.data[k];
    assert (r.waiting - {k}).Keys == r.waiting.Keys - {k};
  }

  // ---------- blocks ----------

  /** Saving a block under its own name adds that block to the directory and disturbs no other. */
  lemma SaveOne(t: Torrent, dir: Directory, p: int, k: int, dir': Directory)
    requires t.Valid() && t.HasBlock(p, k) && dir' == dir[BlockName(p, k) := t.Chunk(p, k)]
    ensures forall q, j :: t.HasBlock(q, j) ==>
      (BlockName(q, j) in dir' <==> BlockName(q, j) in dir || (q == p && j == k))
      && (Saved(t, dir, q, j) ==> Saved(t, dir', q, j))
    ensures Saved(t, dir', p, k)
    ensures OnlyBlockNames(t, dir) ==> OnlyBlockNames(t, dir')
  {
    forall q, j | t.HasBlock(q, j)
      ensures BlockName(q, j) == BlockName(p, k) <==> q == p && j == k
    {
      IndicesAreSmall(t, p, k);
      IndicesAreSmall(t, q, j);
      NamesAreDistinct(p, k, q, j);
    }
  }

  /** The block has been requested on this connection and has not arrived. */
  predicate Missing(c: Conn, k: int) {
    c.requester.Some? && k in c.requester.value.data && c.requester.value.data[k] == Open
  }

  lemma ReceiveCounts(r: Requester, n: nat, k: int)
    requires Counting(r, n) && k in r.data && r.data[k] == Open
    ensures OpenBlocks(Receive(r, k)) == OpenBlocks(r) - {k}
    ensures Receive(r, k).blocksLeft == |OpenBlocks(Receive(r, k))|
    ensures Receive(r, k).waiting.Keys <= OpenBlocks(Receive(r, k))
    ensures KeysAre(Receive(r, k), n) && Receive(r, k).total == n
    ensures Receive(r, k).blocksLeft > 0 ==> Counting(Receive(r, k), n)
    ensures |Receive(r, k).waiting.Keys| <= |r.waiting.Keys|
  {
    assert OpenBlocks(Receive(r, k)) == OpenBlocks(r) - {k};
    SubsetSize((r.waiting - {k}).Keys, r.waiting.Keys);
  }

  /** A local state in which block `k` of piece `p` is awaited. */
  ghost predicate Awaiting(t: Torrent, l: Local, p: int, k: int)
    requires t.Valid()
  {
    LocalOk(t, l) && t.HasBlock(p, k) && p in l.conn.inFlight && Missing(l.conn, k)
  }

  lemma InFlightIs(t: Torrent, l: Local, p: int, k: int)
    requires t.Valid() && Awaiting(t, l, p, k)
    ensures l.conn.inFlight == {p}
    ensures !AllDone(l.shared.table)
    ensures Counting(l.conn.requester.value, t.blocksPerPiece)
  {
    assert l.shared.table[p].status == Downloading;
    forall q
      ensures q in l.conn.inFlight <==> q == p
    {
    }
  }

  lemma SavedKeepsShared(t: Torrent, l: Local, p: int, k: int)
    requires t.Valid() && Awaiting(t, l, p, k)
    ensures SharedOk(t, Accept(l, HonestBlock(t, p, k)).shared)
    ensures FilesMove(t, l.shared, Accept(l, HonestBlock(t, p, k)).shared, {p})
  {
    InFlightIs(t, l, p, k);
    var dir := l.shared.files.blocksDir;
    SaveOne(t, dir, p, k, Save(l.shared.files, HonestBlock(t, p, k)).blocksDir);
  }

  /** The connection after a block that is not the last missing one of its piece. */
  function MiddleConn(t: Torrent, l: Local, p: int, k: int): Conn
    requires t.Valid() && t.HasBlock(p, k) && Missing(l.conn, k)
  {
    Accept(l, HonestBlock(t, p, k)).conn.(requester := Some(Receive(l.conn.requester.value, k)))
  }

  lemma MiddleStep(t: Torrent, l: Local, p: int, k: int)
    requires t.Valid() && t.HasBlock(p, k) && Missing(l.conn, k) && Receive(l.conn.requester.value, k).blocksLeft != 0
    ensures BlockStep(l, HonestBlock(t, p, k))
         == Handled(Local(Accept(l, HonestBlock(t, p, k)).shared, MiddleConn(t, l, p, k)))
  {
  }

  lemma MiddleReceived(t: Torrent, l: Local, p: int, k: int)
    requires t.Valid() && Awaiting(t, l, p, k) && Receive(l.conn.requester.value, k).blocksLeft != 0
    ensures RequesterOk(t, MiddleConn(t, l, p, k)) && MisfiresOk(MiddleConn(t, l, p, k))
    ensures ReceivedSaved(t, Accept(l, HonestBlock(t, p, k)).shared.files.blocksDir, MiddleConn(t, l, p, k))
  {
    var r := l.conn.requester.value;
    InFlightIs(t, l, p, k);
    ReceiveCounts(r, t.blocksPerPiece, k);
    var dir := Accept(l, HonestBlock(t, p, k)).shared.files.blocksDir;
    SaveOne(t, l.shared.files.blocksDir, p, k, dir);
    forall j | t.HasBlock(p, j)
      ensures if Receive(r, k).data[j] == Closed then Saved(t, dir, p, j) else BlockName(p, j) !in dir
    {
    }
  }

  lemma MiddleBlockOk(t: Torrent, l: Local, p: int, k: int)
    requires t.Valid() && Awaiting(t, l, p, k) && Receive(l.conn.requester.value, k).blocksLeft != 0
    ensures BlockStep(l, HonestBlock(t, p, k)).Handled?
    ensures var l' := BlockStep(l, HonestBlock(t, p, k)).value;
      LocalOk(t, l') && Moves(t, l.shared, l'.shared, l.conn.inFlight, l'.conn.inFlight)
  {
    InFlightIs(t, l, p, k);
    SavedKeepsShared(t, l, p, k);
    MiddleReceived(t, l, p, k);
    MiddleStep(t, l, p, k);
    var s, c := Accept(l, HonestBlock(t, p, k)).shared, MiddleConn(t, l, p, k);
    assert s.table == l.shared.table;
    assert ConnOk(t, s, c);
  }

  /** With the last missing block the whole piece is in the directory. */
  lemma PieceIsSaved(t: Torrent, l: Local, p: int, k: int, dir: Directory)
    requires t.Valid() && Awaiting(t, l, p, k) && Receive(l.conn.requester.value, k).blocksLeft == 0
    requires dir == l.shared.files.blocksDir[BlockName(p, k) := t.Chunk(p, k)]
    ensures forall j :: t.HasBlock(p, j) ==> Saved(t, dir, p, j)
    ensures OpenBlocks(Receive(l.conn.requester.value, k)) == {}
  {
    var r := l.conn.requester.value;
    InFlightIs(t, l, p, k);
    ReceiveCounts(r, t.blocksPerPiece, k);
    SaveOne(t, l.shared.files.blocksDir, p, k, dir);
    forall j | t.HasBlock(p, j) && j != k
      ensures Saved(t, dir, p, j)
    {
      assert j !in OpenBlocks(Receive(r, k));
      assert r.data[j] == Closed;
    }
  }

  lemma FinishKeepsQueue(table: Table, c: Conn, p: int, c': Conn)
    requires QueueOk(table, c) && p in table && c'.queue == c.queue && c'.announced == c.announced
    ensures QueueOk(Finish(table, p), c')
  {
    forall x | x in c.announced && Finish(table, p)[x].status == Idle
      ensures x in c.queue
    {
      assert table[x].status == Idle;
    }
  }

  lemma UndoneEmpty(table: Table)
    ensures |Undone(table)| == 0 <==> AllDone(table)
  {
    if AllDone(table) {
      forall i
        ensures i !in Undone(table)
      {
      }
      assert Undone(table) == {};
    } else {
      var i :| i in table && table[i].status != Done;
      assert i in Undone(table);
    }
  }

  /** The shared part once the piece is marked done, before anything else is reserved. */
  function Completed(t: Torrent, s: Shared, p: int, k: int): Shared
    requires t.Valid() && t.HasBlock(p, k) && p in s.table
  {
    s.(table := Finish(s.table, p), files := Save(s.files, HonestBlock(t, p, k)), saved := s.saved + [BlockId(p, k)])
  }

  lemma CompletedMoves(t: Torrent, l: Local, p: int, k: int)
    requires t.Valid() && Awaiting(t, l, p, k)
    ensures Moves(t, l.shared, Completed(t, l.shared, p, k), {p}, {})
  {
    InFlightIs(t, l, p, k);
    SaveOne(t, l.shared.files.blocksDir, p, k, Completed(t, l.shared, p, k).files.blocksDir);
  }

  lemma CompletedTable(t: Torrent, s: Shared, p: int, k: int)
    requires t.Valid() && t.HasBlock(p, k) && p in s.table && TableOk(t, s.table) && LogOk(s)
    requires s.table[p].status == Downloading
    ensures TableOk(t, Completed(t, s, p, k).table) && LogOk(Completed(t, s, p, k))
  {
    forall i | 0 <= i < t.pieces
      ensures t.UniformBlocks(i, Finish(s.table, p)[i].blocks)
    {
      assert t.UniformBlocks(i, s.table[i].blocks);
    }
  }

  lemma CompletedFiles(t: Torrent, l: Local, p: int, k: int)
    requires t.Valid() && Awaiting(t, l, p, k) && Receive(l.conn.requester.value, k).blocksLeft == 0
    ensures var s := Completed(t, l.shared, p, k);
      && DoneSaved(t, s.table, s.files.blocksDir)
      && OnlyBlockNames(t, s.files.blocksDir)
      && IdleAbsent(t, s.table, s.files.blocksDir)
      && s.files.finalFile == None && !s.files.isSeeding && s.finalizations == 0
  {
    var s := Completed(t, l.shared, p, k);
    InFlightIs(t, l, p, k);
    PieceIsSaved(t, l, p, k, s.files.blocksDir);
    SaveOne(t, l.shared.files.blocksDir, p, k, s.files.blocksDir);
  }

  /** The requester after the last block: nothing open, nothing waiting, counter reset. */
  lemma ResetIsReady(t: Torrent, l: Local, p: int, k: int)
    requires t.Valid() && Awaiting(t, l, p, k) && Receive(l.conn.requester.value, k).blocksLeft == 0
    ensures var r := Receive(l.conn.requester.value, k);
      Ready(r.(blocksLeft := r.total), t.blocksPerPiece)
  {
    var r := Receive(l.conn.requester.value, k);
    InFlightIs(t, l, p, k);
    ReceiveCounts(l.conn.requester.value, t.blocksPerPiece, k);
    var r' := r.(blocksLeft := r.total);
    assert OpenBlocks(r') == OpenBlocks(r) == {};
  }

  lemma ComposeMoves(t: Torrent, a: Shared, b: Shared, c: Shared, p: int, after: set<int>)
    requires t.Valid() && Moves(t, a, b, {p}, {}) && Moves(t, b, c, {}, after)
    requires p in a.table
    ensures Moves(t, a, c, {p}, after)
  {
    assert b.table[p].status == Done;
    assert p !in after;
    ComposeStatus(a.table, b.table, c.table, p, after);
    if AllDone(b.table) {
      AllDoneStays(b.table, c.table, {}, after);
    }
  }

  lemma ComposeStatus(a: Table, b: Table, c: Table, p: int, after: set<int>)
    requires StatusMoves(a, b, {p}, {}) && StatusMoves(b, c, {}, after)
    requires p in a && p !in after
    ensures StatusMoves(a, c, {p}, after)
  {
    forall i | i in a && i != p
      ensures b[i].status == a[i].status
    {
    }
  }

  lemma CompletedShared(t: Torrent, l: Local, p: int, k: int)
    requires t.Valid() && Awaiting(t, l, p, k) && Receive(l.conn.requester.value, k).blocksLeft == 0
    requires |Undone(Finish(l.shared.table, p))| != 0
    ensures SharedOk(t, Completed(t, l.shared, p, k))
  {
    InFlightIs(t, l, p, k);
    CompletedFiles(t, l, p, k);
    CompletedTable(t, l.shared, p, k);
    UndoneEmpty(Finish(l.shared.table, p));
  }

  /** The state before the next piece is requested. */
  function BetweenPieces(t: Torrent, l: Local, p: int, k: int): Local
    requires t.Valid() && t.HasBlock(p, k) && p in l.shared.table
  {
    Local(Completed(t, l.shared, p, k),
          l.conn.(inFlight := l.conn.inFlight - {p}, owed := l.conn.owed - multiset{BlockId(p, k)}))
  }

  function ResetRequester(l: Local, k: int): Requester
    requires l.conn.requester.Some?
  {
    var r := Receive(l.conn.requester.value, k);
    r.(blocksLeft := r.total)
  }

  lemma LastBlockStep(t: Torrent, l: Local, p: int, k: int)
    requires t.Valid() && t.HasBlock(p, k) && p in l.shared.table && Missing(l.conn, k)
    requires Receive(l.conn.requester.value, k).blocksLeft == 0
    ensures var l1, r := BetweenPieces(t, l, p, k), ResetRequester(l, k);
      BlockStep(l, HonestBlock(t, p, k))
      == if |Undone(l1.shared.table)| != 0 then RequestNext(l1, r)
         else Handled(FinalizeWith(l1, r))
  {
  }

  lemma BetweenPiecesOk(t: Torrent, l: Local, p: int, k: int)
    requires t.Valid() && Awaiting(t, l, p, k) && Receive(l.conn.requester.value, k).blocksLeft == 0
    ensures p in l.shared.table && l.conn.inFlight == {p}
    ensures var l1, r := BetweenPieces(t, l, p, k), ResetRequester(l, k);
      && QueueOk(l1.shared.table, l1.conn) && l1.conn.inFlight == {}
      && Ready(r, t.blocksPerPiece) && MisfiresOk(l1.conn.(requester := Some(r)))
      && Moves(t, l.shared, l1.shared, {p}, {})
  {
    InFlightIs(t, l, p, k);
    var l1 := BetweenPieces(t, l, p, k);
    assert l.conn.inFlight - {p} == {};
    FinishKeepsQueue(l.shared.table, l.conn, p, l1.conn);
    ResetIsReady(t, l, p, k);
    NothingWaiting(l1.conn, ResetRequester(l, k));
    CompletedMoves(t, l, p, k);
  }

  /** The last missing block of a piece that is not the last piece: the piece is done and the next idle one
      of the queue is requested. */
  lemma LastBlockOk(t: Torrent, l: Local, p: int, k: int)
    requires t.Valid() && Awaiting(t, l, p, k) && Receive(l.conn.requester.value, k).blocksLeft == 0
    requires |Undone(Finish(l.shared.table, p))| != 0
    ensures BlockStep(l, HonestBlock(t, p, k)).Handled?
    ensures var l' := BlockStep(l, HonestBlock(t, p, k)).value;
      LocalOk(t, l') && Moves(t, l.shared, l'.shared, l.conn.inFlight, l'.conn.inFlight)
  {
    BetweenPiecesOk(t, l, p, k);
    var l1, r := BetweenPieces(t, l, p, k), ResetRequester(l, k);
    CompletedShared(t, l, p, k);
    RequestNextOk(t, l1, r);
    ComposeMoves(t, l.shared, l1.shared, RequestNext(l1, r).value.shared, p, RequestNext(l1, r).value.conn.inFlight);
    LastBlockStep(t, l, p, k);
  }

  /** The last missing block of the last piece: the finished file is the torrent's content. */
  lemma FinalBlockOk(t: Torrent, l: Local, p: int, k: int)
    requires t.Valid() && Awaiting(t, l, p, k) && Receive(l.conn.requester.value, k).blocksLeft == 0
    requires |Undone(Finish(l.shared.table, p))| == 0
    ensures BlockStep(l, HonestBlock(t, p, k)).Handled?
    ensures var l' := BlockStep(l, HonestBlock(t, p, k)).value;
      LocalOk(t, l') && Moves(t, l.shared, l'.shared, l.conn.inFlight, l'.conn.inFlight)
  {
    FinalBlockFine(t, l, p, k);
    InFlightIs(t, l, p, k);
    LastBlockStep(t, l, p, k);
  }

  lemma FinalBlockFine(t: Torrent, l: Local, p: int, k: int)
    requires t.Valid() && Awaiting(t, l, p, k) && Receive(l.conn.requester.value, k).blocksLeft == 0
    requires |Undone(Finish(l.shared.table, p))| == 0
    ensures FinalOk(t, l.shared, FinalizeWith(BetweenPieces(t, l, p, k), ResetRequester(l, k)), p)
  {
    BetweenPiecesOk(t, l, p, k);
    FinalShared(t, l, p, k);
    FinalStateOk(t, l.shared, BetweenPieces(t, l, p, k), ResetRequester(l, k), p);
  }

  lemma FinalStateOk(t: Torrent, a: Shared, l: Local, r: Requester, p: int)
    requires t.Valid() && AllDone(l.shared.table) && QueueOk(l.shared.table, l.conn) && l.conn.inFlight == {}
    requires AtRest(r) && MisfiresOk(l.conn.(requester := Some(r))) && Moves(t, a, l.shared, {p}, {})
    requires SharedOk(t, FinalizeWith(l, r).shared)
    ensures FinalOk(t, a, FinalizeWith(l, r), p)
  {
    FinalConnOk(t, l, l.conn.(requester := Some(r)));
  }

  ghost predicate FinalOk(t: Torrent, a: Shared, l: Local, p: int)
    requires t.Valid()
  {
    LocalOk(t, l) && Moves(t, a, l.shared, {p}, {}) && l.conn.inFlight == {}
  }

  lemma FinalConnOk(t: Torrent, l: Local, c: Conn)
    requires t.Valid() && AllDone(l.shared.table) && QueueOk(l.shared.table, c) && MisfiresOk(c)
    requires c.inFlight == {} && c.requester.Some? && AtRest(c.requester.value)
    ensures forall s: Shared :: s.table == l.shared.table ==> ConnOk(t, s, c)
  {
  }

  lemma FinalShared(t: Torrent, l: Local, p: int, k: int)
    requires t.Valid() && Awaiting(t, l, p, k) && Receive(l.conn.requester.value, k).blocksLeft == 0
    requires p in l.shared.table && |Undone(Finish(l.shared.table, p))| == 0
    ensures var l1, r := BetweenPieces(t, l, p, k), ResetRequester(l, k);
      AllDone(l1.shared.table) && SharedOk(t, FinalizeWith(l1, r).shared)
  {
    InFlightIs(t, l, p, k);
    CompletedFiles(t, l, p, k);
    CompletedTable(t, l.shared, p, k);
    UndoneEmpty(Completed(t, l.shared, p, k).table);
    AssembledShared(t, Completed(t, l.shared, p, k));
  }

  lemma AssembledShared(t: Torrent, s: Shared)
    requires t.Valid() && TableOk(t, s.table) && LogOk(s) && AllDone(s.table)
    requires DoneSaved(t, s.table, s.files.blocksDir) && OnlyBlockNames(t, s.files.blocksDir)
    requires s.files.finalFile == None && s.finalizations == 0
    ensures SharedOk(t, s.(files := Finalize(s.files), finalizations := 1))
  {
    EverythingHeld(t, s);
    AssembledIsContent(t, s.files.blocksDir);
  }

  lemma EverythingHeld(t: Torrent, s: Shared)
    requires t.Valid() && TableOk(t, s.table) && AllDone(s.table)
    requires DoneSaved(t, s.table, s.files.blocksDir) && OnlyBlockNames(t, s.files.blocksDir)
    ensures HoldsExactly(t, s.files.blocksDir)
  {
    forall p, k | t.HasBlock(p, k)
      ensures Saved(t, s.files.blocksDir, p, k)
    {
      assert p in s.table && s.table[p].status == Done;
    }
  }

  lemma PieceOk(t: Torrent, l: Local, p: int, k: int)
    requires t.Valid() && Awaiting(t, l, p, k)
    ensures PieceStep(l, HonestPayload(t, p, k)).Handled?
    ensures var l' := PieceStep(l, HonestPayload(t, p, k)).value;
      LocalOk(t, l') && Moves(t, l.shared, l'.shared, l.conn.inFlight, l'.conn.inFlight)
  {
    ReplyIsUnderstood(t, p, k);
    if Receive(l.conn.requester.value, k).blocksLeft != 0 {
      MiddleBlockOk(t, l, p, k);
    } else if |Undone(Finish(l.shared.table, p))| != 0 {
      LastBlockOk(t, l, p, k);
    } else {
      FinalBlockOk(t, l, p, k);
    }
  }
}
