/** What holds of every run in which peers send the torrent's blocks, however often and in whatever order, and
    no announcement cuts a running download short: requests, replies and pieces balance. */
module ProtocolAccounts {
  import opened Wrappers
  import opened Bytes
  import opened Pieces
  import opened SliceUtil
  import opened Cardinality
  import opened Addressing
  import opened BitfieldMessages
  import opened PeerMessages
  import opened FileInfos
  import opened Copies
  import opened Serving
  import opened Protocol
  import opened ProtocolInvariant
  import opened ProtocolSteps
  import opened ProtocolExactness
  import opened ProtocolTotals
  import opened ProtocolRuns
  import opened ProtocolReservations

  // ---------- honest and well-timed runs ----------

  /** An announcement that adds pieces to the queue comes when it may. */
  ghost predicate WellTimed(l: Local, e: Event) {
    match e
    case HaveMsg(_, _) => MayAnnounce(l.conn)
    case BitfieldMsg(_, payload) =>
      var indices := PieceIndices(payload, MaxIdx(l.shared.table.Keys));
      (indices.Ok? && |indices.value| > 0) ==> MayAnnounce(l.conn)
    case _ => true
  }

  /** Peers send blocks of the torrent and announce at the right time.  Nothing is asked of the replies: a
      block may come late, twice, or without having been requested. */
  ghost predicate HonestRun(t: Torrent, w: World, es: seq<Event>)
    requires t.Valid()
    decreases |es|
  {
    |es| == 0 ||
    (es[0].conn < |w.conns| && HonestContent(t, es[0]) && WellTimed(At(w, es[0].conn), es[0])
     && (Advance(w, es[0]).Handled? ==> HonestRun(t, Advance(w, es[0]).value, es[1..])))
  }

  // ---------- the balance ----------

  function OpenCount(c: Conn): int {
    if c.requester.Some? then |OpenBlocks(c.requester.value)| else 0
  }

  function BusyCount(c: Conn): int {
    if Busy(c) then 1 else 0
  }

  /** The counter of a requester is the number of its open channels, or reset if there is none. */
  ghost predicate Tallies(r: Requester, n: nat) {
    && r.total == n && r.waiting.Keys <= OpenBlocks(r)
    && r.blocksLeft == if OpenBlocks(r) == {} then n else |OpenBlocks(r)|
  }

  ghost predicate ConnTallies(c: Conn, n: nat) {
    c.requester.Some? ==> Tallies(c.requester.value, n)
  }

  /** A step on one connection: with a reservation goes a channel per block, with every block saved one
      channel, and with every piece done a running download. */
  ghost predicate Balances(a: Local, b: Local, n: nat) {
    && (|b.shared.reservations| == |a.shared.reservations| || |b.shared.reservations| == |a.shared.reservations| + 1)
    && |b.shared.saved| + OpenCount(b.conn)
       == |a.shared.saved| + OpenCount(a.conn)
          + (if |b.shared.reservations| == |a.shared.reservations| then 0 else n)
    && BusyCount(b.conn) - |Undone(b.shared.table)| - |b.shared.reservations|
       <= BusyCount(a.conn) - |Undone(a.shared.table)| - |a.shared.reservations|
  }

  /** Nothing is saved or finished. */
  ghost predicate Quiet(a: Shared, b: Shared) {
    b.files == a.files && b.saved == a.saved && b.finalizations == a.finalizations
    && Undone(b.table) == Undone(a.table)
  }

  /** The block is saved; if that leaves no piece undone the download is finalised. */
  ghost predicate Saves(a: Shared, b: Shared, blk: Block) {
    && b.saved == a.saved + [blk.Id()]
    && if b.finalizations == a.finalizations
       then b.files == Save(a.files, blk) && (AllDone(b.table) ==> AllDone(a.table))
       else b.finalizations == a.finalizations + 1 && b.files == Finalize(Save(a.files, blk)) && AllDone(b.table)
  }

  /** A connection that is done with a piece or has yet to begin. */
  ghost predicate Fresh(r: Requester, n: nat) {
    r.total == n && r.blocksLeft == n && OpenBlocks(r) == {} && r.waiting == map[]
  }

  lemma ReserveKeepsUndone(table: Table, i: int, peerId: string)
    requires i in table && table[i].status == Idle
    ensures Undone(Reserve(table, i, peerId)) == Undone(table)
  {
  }

  lemma RequestNextBalances(t: Torrent, l: Local, r: Requester)
    requires t.Valid() && TableOk(t, l.shared.table) && Fresh(r, t.blocksPerPiece) && RequestNext(l, r).Handled?
    ensures var l' := RequestNext(l, r).value;
      && TableOk(t, l'.shared.table) && Quiet(l.shared, l'.shared)
      && ConnTallies(l'.conn, t.blocksPerPiece)
      && Balances(l.(conn := l.conn.(requester := Some(r))), l', t.blocksPerPiece)
  {
    NextIdleLaws(l.shared.table, l.conn.queue);
    match NextIdle(l.shared.table, l.conn.queue)
    case Exhausted =>
    case Reserved(_, i, rest) =>
      var blocks := l.shared.table[i].blocks;
      ReserveKeepsUndone(l.shared.table, i, l.conn.peerId);
      IdxsOfUniform(t, i, blocks);
      RequestAllOpens(r, blocks);
      OpenedTallies(r, t.blocksPerPiece, RequestAll(r, blocks));
  }

  lemma OpenedTallies(r: Requester, n: nat, r': Requester)
    requires n > 0 && Fresh(r, n) && Opened(r, Range(n), r')
    ensures Tallies(r', n) && OpenBlocks(r') == Range(n) && OpenBlocks(r') != {}
  {
    assert OpenBlocks(r') == Range(n);
    assert 0 in Range(n);
  }

  // ---------- announcements and misfires ----------

  lemma FreshRequester(t: Torrent, table: Table, i: int)
    requires t.Valid() && TableOk(t, table) && i in table
    ensures Fresh(NewRequester(table[i].BlockCount()), t.blocksPerPiece)
  {
    assert t.UniformBlocks(i, table[i].blocks);
    assert OpenBlocks(NewRequester(table[i].BlockCount())) == {};
  }

  /** What a step other than a reply does. */
  ghost predicate QuietBalanced(t: Torrent, l: Local, l': Local)
    requires t.Valid()
  {
    && TableOk(t, l'.shared.table) && Quiet(l.shared, l'.shared)
    && ConnTallies(l'.conn, t.blocksPerPiece) && Balances(l, l', t.blocksPerPiece)
  }

  lemma EnqueueBalances(t: Torrent, l: Local, queue: seq<int>, news: seq<int>)
    requires t.Valid() && TableOk(t, l.shared.table) && ConnTallies(l.conn, t.blocksPerPiece) && MayAnnounce(l.conn)
    requires |queue| > 0 && Enqueue(l, queue, news).Handled?
    ensures QuietBalanced(t, l, Enqueue(l, queue, news).value)
  {
    if |l.conn.queue| == 0 {
      var l1 := l.(conn := l.conn.(queue := queue, announced := l.conn.announced + news));
      FreshRequester(t, l.shared.table, queue[0]);
      RequestNextBalances(t, l1, NewRequester(l.shared.table[queue[0]].BlockCount()));
    }
  }

  lemma HaveBalances(t: Torrent, l: Local, payload: seq<byte>)
    requires t.Valid() && TableOk(t, l.shared.table) && ConnTallies(l.conn, t.blocksPerPiece) && MayAnnounce(l.conn)
    requires HaveStep(l, payload).Handled?
    ensures QuietBalanced(t, l, HaveStep(l, payload).value)
  {
    var i := Uint32(payload);
    if i !in l.conn.queue {
      EnqueueBalances(t, l, l.conn.queue + [i], [i]);
    }
  }

  lemma BitfieldBalances(t: Torrent, l: Local, payload: seq<byte>)
    requires t.Valid() && TableOk(t, l.shared.table) && ConnTallies(l.conn, t.blocksPerPiece)
    requires WellTimed(l, BitfieldMsg(0, payload)) && BitfieldStep(l, payload).Handled?
    ensures QuietBalanced(t, l, BitfieldStep(l, payload).value)
  {
    var indices := PieceIndices(payload, MaxIdx(l.shared.table.Keys)).value;
    if |indices| > 0 {
      MergedNotEmpty(l.conn.queue, indices);
      EnqueueBalances(t, l, UniqueMerge(l.conn.queue, indices), Newcomers(l.conn.queue, indices));
    }
  }

  lemma MisfireBalances(t: Torrent, l: Local, k: int)
    requires t.Valid() && TableOk(t, l.shared.table) && ConnTallies(l.conn, t.blocksPerPiece)
    requires MisfireStep(l, k).Handled?
    ensures QuietBalanced(t, l, MisfireStep(l, k).value)
  {
    var r, r' := l.conn.requester.value, MisfireStep(l, k).value.conn.requester.value;
    assert k in OpenBlocks(r);
    assert OpenBlocks(r') == OpenBlocks(r);
  }

  // ---------- replies ----------

  lemma ReceiveTallies(r: Requester, n: nat, k: int)
    requires Tallies(r, n) && k in OpenBlocks(r)
    ensures OpenBlocks(Receive(r, k)) == OpenBlocks(r) - {k}
    ensures Receive(r, k).blocksLeft == |OpenBlocks(r)| - 1
    ensures Receive(r, k).waiting.Keys <= OpenBlocks(Receive(r, k))
    ensures Receive(r, k).blocksLeft != 0 ==> Tallies(Receive(r, k), n) && OpenBlocks(Receive(r, k)) != {}
    ensures Receive(r, k).blocksLeft == 0 ==>
      OpenBlocks(Receive(r, k)) == {} && Fresh(Receive(r, k).(blocksLeft := n), n)
  {
    var r' := Receive(r, k);
    assert OpenBlocks(r') == OpenBlocks(r) - {k};
    assert |OpenBlocks(r')| == |OpenBlocks(r)| - 1;
    if r'.blocksLeft == 0 {
      assert OpenBlocks(r') == {};
      assert OpenBlocks(r'.(blocksLeft := n)) == OpenBlocks(r');
      assert r'.waiting.Keys == {};
    }
  }

  lemma FinishCounts(table: Table, p: int)
    requires p in table
    ensures Undone(Finish(table, p)) == Undone(table) - {p}
    ensures |Undone(table)| - 1 <= |Undone(Finish(table, p))|
  {
    assert Undone(Finish(table, p)) == Undone(table) - {p};
  }

  lemma FinishKeepsTable(t: Torrent, table: Table, p: int)
    requires t.Valid() && TableOk(t, table) && p in table
    ensures TableOk(t, Finish(table, p))
  {
    forall i | 0 <= i < t.pieces
      ensures t.UniformBlocks(i, Finish(table, p)[i].blocks)
    {
      assert t.UniformBlocks(i, table[i].blocks);
    }
  }

  /** What a reply does that is taken in. */
  ghost predicate ReplyBalanced(t: Torrent, l: Local, l': Local, b: Block)
    requires t.Valid()
  {
    && TableOk(t, l'.shared.table) && Saves(l.shared, l'.shared, b)
    && ConnTallies(l'.conn, t.blocksPerPiece) && Balances(l, l', t.blocksPerPiece)
  }

  lemma MiddleBalances(t: Torrent, l: Local, b: Block)
    requires t.Valid() && TableOk(t, l.shared.table) && ConnTallies(l.conn, t.blocksPerPiece)
    requires Missing(l.conn, b.idx) && Receive(l.conn.requester.value, b.idx).blocksLeft != 0
    ensures BlockStep(l, b).Handled? && ReplyBalanced(t, l, BlockStep(l, b).value, b)
  {
    ReceiveTallies(l.conn.requester.value, t.blocksPerPiece, b.idx);
  }

  /** The state between the last reply of a running download and what follows. */
  function Between(l: Local, b: Block): Local
    requires b.pieceIdx in l.shared.table
  {
    var l1 := Accept(l, b);
    Local(l1.shared.(table := Finish(l1.shared.table, b.pieceIdx)),
          l1.conn.(inFlight := l1.conn.inFlight - {b.pieceIdx}))
  }

  lemma BetweenBalances(t: Torrent, l: Local, b: Block, r: Requester)
    requires t.Valid() && TableOk(t, l.shared.table) && ConnTallies(l.conn, t.blocksPerPiece)
    requires b.pieceIdx in l.shared.table
    requires Missing(l.conn, b.idx) && Receive(l.conn.requester.value, b.idx).blocksLeft == 0
    requires Fresh(r, t.blocksPerPiece)
    ensures var l1 := Between(l, b);
      && TableOk(t, l1.shared.table)
      && Balances(l, l1.(conn := l1.conn.(requester := Some(r))), t.blocksPerPiece)
      && l1.shared.saved == l.shared.saved + [b.Id()] && l1.shared.files == Save(l.shared.files, b)
      && l1.shared.finalizations == l.shared.finalizations
  {
    ReceiveTallies(l.conn.requester.value, t.blocksPerPiece, b.idx);
    FinishCounts(l.shared.table, b.pieceIdx);
    FinishKeepsTable(t, l.shared.table, b.pieceIdx);
  }

  lemma BalancesCompose(a: Local, b: Local, c: Local, n: nat)
    requires Balances(a, b, n) && Balances(b, c, n) && |b.shared.reservations| == |a.shared.reservations|
    ensures Balances(a, c, n)
  {
  }

  lemma LastStep(l: Local, b: Block)
    requires Missing(l.conn, b.idx) && Receive(l.conn.requester.value, b.idx).blocksLeft == 0
    requires b.pieceIdx in l.shared.table
    ensures var l1 := Between(l, b);
      var r := Receive(l.conn.requester.value, b.idx).(blocksLeft := l.conn.requester.value.total);
      BlockStep(l, b)
      == if |Undone(l1.shared.table)| != 0 then RequestNext(l1, r)
         else Handled(FinalizeWith(l1, r))
  {
  }

  lemma NextPieceBalances(t: Torrent, l: Local, b: Block, r: Requester)
    requires t.Valid() && TableOk(t, l.shared.table) && ConnTallies(l.conn, t.blocksPerPiece)
    requires b.pieceIdx in l.shared.table
    requires Missing(l.conn, b.idx) && Receive(l.conn.requester.value, b.idx).blocksLeft == 0
    requires Fresh(r, t.blocksPerPiece) && |Undone(Between(l, b).shared.table)| != 0
    requires RequestNext(Between(l, b), r).Handled?
    ensures ReplyBalanced(t, l, RequestNext(Between(l, b), r).value, b)
  {
    BetweenBalances(t, l, b, r);
    var l1 := Between(l, b);
    var l' := RequestNext(l1, r).value;
    RequestNextBalances(t, l1, r);
    UndoneEmpty(l1.shared.table);
    UndoneEmpty(l'.shared.table);
    BalancesCompose(l, l1.(conn := l1.conn.(requester := Some(r))), l', t.blocksPerPiece);
  }

  lemma FinalReplyBalances(t: Torrent, l: Local, b: Block, r: Requester)
    requires t.Valid() && TableOk(t, l.shared.table) && ConnTallies(l.conn, t.blocksPerPiece)
    requires b.pieceIdx in l.shared.table
    requires Missing(l.conn, b.idx) && Receive(l.conn.requester.value, b.idx).blocksLeft == 0
    requires Fresh(r, t.blocksPerPiece) && |Undone(Between(l, b).shared.table)| == 0
    ensures ReplyBalanced(t, l, FinalizeWith(Between(l, b), r), b)
  {
    BetweenBalances(t, l, b, r);
    UndoneEmpty(Between(l, b).shared.table);
  }

  lemma LastBalances(t: Torrent, l: Local, b: Block)
    requires t.Valid() && TableOk(t, l.shared.table) && ConnTallies(l.conn, t.blocksPerPiece)
    requires b.pieceIdx in l.shared.table
    requires Missing(l.conn, b.idx) && Receive(l.conn.requester.value, b.idx).blocksLeft == 0
    requires BlockStep(l, b).Handled?
    ensures ReplyBalanced(t, l, BlockStep(l, b).value, b)
  {
    ReceiveTallies(l.conn.requester.value, t.blocksPerPiece, b.idx);
    var r := Receive(l.conn.requester.value, b.idx).(blocksLeft := t.blocksPerPiece);
    LastStep(l, b);
    if |Undone(Between(l, b).shared.table)| != 0 {
      NextPieceBalances(t, l, b, r);
    } else {
      FinalReplyBalances(t, l, b, r);
    }
  }

  lemma BlockBalances(t: Torrent, l: Local, b: Block)
    requires t.Valid() && TableOk(t, l.shared.table) && ConnTallies(l.conn, t.blocksPerPiece)
    requires BlockStep(l, b).Handled? && b.pieceIdx in l.shared.table
    ensures ReplyBalanced(t, l, BlockStep(l, b).value, b)
    ensures Busy(l.conn)
  {
    assert b.idx in OpenBlocks(l.conn.requester.value);
    if Receive(l.conn.requester.value, b.idx).blocksLeft != 0 {
      MiddleBalances(t, l, b);
    } else {
      LastBalances(t, l, b);
    }
  }

  // ---------- all connections ----------

  /** REQUESTs, replies and pieces balance over all connections: every block of a reserved piece has an open
      channel or has been answered, and every reservation stands for a piece done or a download running. */
  ghost predicate Balance(t: Torrent, w: World) {
    && |w.shared.saved| + Total(w.conns, OpenCount) == t.blocksPerPiece * |w.shared.reservations|
    && t.pieces - |Undone(w.shared.table)| + Total(w.conns, BusyCount) <= |w.shared.reservations|
  }

  /** The finished file was assembled from these replies: it has the blocks that came, and it is the
      torrent's content exactly if none came twice. */
  ghost predicate FinishedFrom(t: Torrent, file: seq<byte>, saved: seq<BlockId>) {
    |file| == |Elements(saved)| * t.blockLength && (file == t.content <==> NoDuplicates(saved))
  }

  ghost predicate SavesOk(t: Torrent, s: Shared)
    requires t.Valid()
  {
    && (forall id :: id in s.saved ==> t.HasBlock(id.pieceIdx, id.idx))
    && if AllDone(s.table) then
      && s.finalizations == 1 && s.files.isSeeding
      && s.files.finalFile.Some? && FinishedFrom(t, s.files.finalFile.value, s.saved)
    else
      && s.finalizations == 0 && !s.files.isSeeding
      && s.files.finalFile == None && HoldsCopies(t, s.files.blocksDir, s.saved)
  }

  ghost predicate Accounts(t: Torrent, w: World) {
    && t.Valid() && TableOk(t, w.shared.table) && LogSound(w.shared)
    && (forall c :: 0 <= c < |w.conns| ==> ConnTallies(w.conns[c], t.blocksPerPiece))
    && Balance(t, w) && SavesOk(t, w.shared)
  }

  lemma InitialAccounts(t: Torrent, w: World)
    requires t.Valid() && Initial(t, w)
    ensures Accounts(t, w)
  {
    TotalOfZeros(w.conns, OpenCount);
    TotalOfZeros(w.conns, BusyCount);
    assert Undone(w.shared.table) == Range(t.pieces);
    assert 0 in w.shared.table;
  }

  lemma BalanceAfter(t: Torrent, w: World, c: nat, l: Local)
    requires Balance(t, w) && c < |w.conns| && Balances(At(w, c), l, t.blocksPerPiece)
    ensures Balance(t, Replace(w, c, l))
  {
    TotalUpdate(w.conns, OpenCount, c, l.conn);
    TotalUpdate(w.conns, BusyCount, c, l.conn);
    assert t.blocksPerPiece * (|w.shared.reservations| + 1)
        == t.blocksPerPiece * |w.shared.reservations| + t.blocksPerPiece;
  }

  /** There are no more reservations than pieces; if all pieces are done nothing is running and every block
      has been answered for. */
  lemma BalanceBounds(t: Torrent, w: World)
    requires t.Valid() && TableOk(t, w.shared.table) && LogSound(w.shared) && Balance(t, w)
    ensures AllDone(w.shared.table) ==>
      (forall c :: 0 <= c < |w.conns| ==> !Busy(w.conns[c])) && |w.shared.saved| == t.pieces * t.blocksPerPiece
  {
    DistinctIndices(w.shared.reservations, t.pieces);
    TotalIsNatural(w.conns, BusyCount);
    UndoneEmpty(w.shared.table);
    if AllDone(w.shared.table) {
      forall c | 0 <= c < |w.conns|
        ensures !Busy(w.conns[c]) && OpenCount(w.conns[c]) == 0
      {
        assert BusyCount(w.conns[c]) == 0;
      }
      TotalOfZeros(w.conns, OpenCount);
    }
  }

  lemma QuietSaves(t: Torrent, a: Shared, b: Shared)
    requires t.Valid() && Quiet(a, b) && SavesOk(t, a)
    ensures SavesOk(t, b)
  {
    UndoneEmpty(a.table);
    UndoneEmpty(b.table);
  }

  lemma ReplySaves(t: Torrent, w: World, w': World, p: int, k: int)
    requires t.Valid() && t.HasBlock(p, k) && !AllDone(w.shared.table) && SavesOk(t, w.shared)
    requires Saves(w.shared, w'.shared, HonestBlock(t, p, k))
    requires TableOk(t, w'.shared.table) && LogSound(w'.shared) && Balance(t, w')
    ensures SavesOk(t, w'.shared)
  {
    SaveCopy(t, w.shared.files.blocksDir, w.shared.saved, p, k);
    if AllDone(w'.shared.table) {
      BalanceBounds(t, w');
      CompleteIffDistinct(t, Save(w.shared.files, HonestBlock(t, p, k)).blocksDir, w'.shared.saved);
    }
  }

  /** The block that an event brings, if it brings one. */
  function ReplyIn(e: Event): seq<BlockId> {
    if e.PieceMsg? && ReceivedBlock(e.payload).Ok? then [ReceivedBlock(e.payload).value.Id()] else []
  }

  /** The blocks that peers have sent, in the order of their arrival. */
  function RepliesIn(es: seq<Event>): seq<BlockId> {
    if |es| == 0 then [] else ReplyIn(es[0]) + RepliesIn(es[1..])
  }

  /** What a handled event of an honest run does to its connection. */
  ghost predicate Explained(t: Torrent, l: Local, l': Local)
    requires t.Valid()
  {
    QuietBalanced(t, l, l')
    || exists p, k :: t.HasBlock(p, k) && Busy(l.conn) && ReplyBalanced(t, l, l', HonestBlock(t, p, k))
  }

  lemma StepIsExplained(t: Torrent, l: Local, e: Event)
    requires t.Valid() && TableOk(t, l.shared.table) && ConnTallies(l.conn, t.blocksPerPiece)
    requires HonestContent(t, e) && WellTimed(l, e) && LocalStep(l, e).Handled?
    ensures Explained(t, l, LocalStep(l, e).value)
    ensures LocalStep(l, e).value.shared.saved == l.shared.saved + ReplyIn(e)
  {
    match e
    case HaveMsg(_, payload) => HaveBalances(t, l, payload);
    case BitfieldMsg(_, payload) => BitfieldBalances(t, l, payload);
    case PieceMsg(_, payload) => ReplyIsExplained(t, l, payload);
    case Misfire(_, k) => MisfireBalances(t, l, k);
  }

  lemma ReplyIsExplained(t: Torrent, l: Local, payload: seq<byte>)
    requires t.Valid() && TableOk(t, l.shared.table) && ConnTallies(l.conn, t.blocksPerPiece)
    requires HonestPiece(t, payload) && PieceStep(l, payload).Handled?
    ensures Explained(t, l, PieceStep(l, payload).value)
    ensures ReceivedBlock(payload).Ok?
    ensures PieceStep(l, payload).value.shared.saved == l.shared.saved + [ReceivedBlock(payload).value.Id()]
  {
    var p, k :| t.HasBlock(p, k) && payload == HonestPayload(t, p, k);
    ReplyIsUnderstood(t, p, k);
    BlockBalances(t, l, HonestBlock(t, p, k));
  }

  lemma ReplaceAccounts(t: Torrent, w: World, c: nat, l: Local)
    requires Accounts(t, w) && c < |w.conns| && Explained(t, At(w, c), l) && LogSound(l.shared)
    ensures Accounts(t, Replace(w, c, l))
  {
    var w' := Replace(w, c, l);
    BalanceAfter(t, w, c, l);
    if QuietBalanced(t, At(w, c), l) {
      QuietSaves(t, w.shared, l.shared);
    } else {
      BalanceBounds(t, w);
      var p, k :| t.HasBlock(p, k) && Busy(w.conns[c]) && ReplyBalanced(t, At(w, c), l, HonestBlock(t, p, k));
      ReplySaves(t, w, w', p, k);
    }
  }

  lemma AdvanceAccounts(t: Torrent, w: World, e: Event)
    requires Accounts(t, w) && e.conn < |w.conns| && HonestContent(t, e) && WellTimed(At(w, e.conn), e)
    requires Advance(w, e).Handled?
    ensures Accounts(t, Advance(w, e).value)
    ensures Advance(w, e).value.shared.saved == w.shared.saved + ReplyIn(e)
  {
    AdvanceIsLocal(w, e);
    if LocalStep(At(w, e.conn), e).Handled? {
      StepForward(At(w, e.conn), e);
      StepIsExplained(t, At(w, e.conn), e);
      ReplaceAccounts(t, w, e.conn, LocalStep(At(w, e.conn), e).value);
    }
  }

  lemma {:induction false} RunAccounts(t: Torrent, w: World, es: seq<Event>)
    requires Accounts(t, w) && HonestRun(t, w, es) && Run(w, es).Handled?
    ensures Accounts(t, Run(w, es).value)
    decreases |es|
  {
    if |es| > 0 {
      AdvanceAccounts(t, w, es[0]);
      RunAccounts(t, Advance(w, es[0]).value, es[1..]);
    }
  }

  lemma {:induction false} RunSaves(t: Torrent, w: World, es: seq<Event>)
    requires Accounts(t, w) && HonestRun(t, w, es) && Run(w, es).Handled?
    ensures Run(w, es).value.shared.saved == w.shared.saved + RepliesIn(es)
    decreases |es|
  {
    if |es| > 0 {
      var w' := Advance(w, es[0]).value;
      AdvanceAccounts(t, w, es[0]);
      RunSaves(t, w', es[1..]);
      SavesAssociate(w.shared.saved, ReplyIn(es[0]), RepliesIn(es[1..]));
    }
  }

  lemma SavesAssociate(a: seq<BlockId>, b: seq<BlockId>, c: seq<BlockId>)
    ensures a + b + c == a + (b + c)
  {
  }

  // ---------- when the finished file is right ----------

  /** Whatever the replies, as long as they carry blocks of the torrent and announcements are well timed:
      finalisation happens once, when all pieces are marked done, and by then exactly as many replies have
      come as the torrent has blocks.  So the finished file is the seeder's exactly if no block came twice;
      otherwise it is shorter, by a block for every one that came again. */
  lemma FinishedFileIff(t: Torrent, w0: World, es: seq<Event>, w: World)
    requires t.Valid() && Initial(t, w0) && HonestRun(t, w0, es) && Run(w0, es) == Handled(w)
    ensures w.shared.finalizations <= 1
    ensures w.shared.finalizations > 0 <==> AllDone(w.shared.table)
    ensures w.shared.finalizations > 0 <==> w.shared.files.isSeeding
    ensures w.shared.finalizations > 0 ==>
      && |RepliesIn(es)| == t.pieces * t.blocksPerPiece
      && w.shared.files.finalFile.Some?
      && |w.shared.files.finalFile.value| == |Elements(RepliesIn(es))| * t.blockLength
      && (w.shared.files.finalFile.value == t.content <==> NoDuplicates(RepliesIn(es)))
  {
    InitialAccounts(t, w0);
    RunAccounts(t, w0, es);
    RunSaves(t, w0, es);
    assert w.shared.saved == RepliesIn(es);
    BalanceBounds(t, w);
  }
}
