/** Which replies are in order, told from the messages alone: first answers to REQUESTs that were sent. */
module ProtocolAnswers {
  import opened Bytes
  import opened Pieces
  import opened SliceUtil
  import opened Cardinality
  import opened Addressing
  import opened BitfieldMessages
  import opened BlockNames
  import opened FileInfos
  import opened Copies
  import opened Serving
  import opened Protocol
  import opened ProtocolInvariant
  import opened ProtocolSteps
  import opened ProtocolReplies
  import opened ProtocolExactness
  import opened ProtocolRuns
  import opened ProtocolAccounts
  import opened ProtocolRequests

  /** Every REQUEST without an answer is for a block of a piece in flight here or done, every block still
      missing has such a REQUEST, and the time-outs still running are for missing blocks of the piece in
      flight. */
  ghost predicate OwedOk(table: Table, c: Conn) {
    && (forall id :: id in c.owed ==>
          id.pieceIdx in c.inFlight || (id.pieceIdx in table && table[id.pieceIdx].status == Done))
    && (forall p, k :: p in c.inFlight && c.requester.Some? && k in OpenBlocks(c.requester.value) ==>
          BlockId(p, k) in c.owed)
    && forall k :: k in Waiting(c) ==>
         var b := c.requester.value.waiting[k]; b.idx == k && b.pieceIdx in c.inFlight
  }

  /** The same for a connection with nothing in flight. */
  ghost predicate OwedAtRest(table: Table, c: Conn) {
    c.inFlight == {} && forall id :: id in c.owed ==> id.pieceIdx in table && table[id.pieceIdx].status == Done
  }

  lemma IdsOfUniform(t: Torrent, p: int, blocks: seq<Block>)
    requires t.Valid() && 0 <= p < t.pieces && t.UniformBlocks(p, blocks)
    ensures forall id :: id in Ids(blocks) <==> id.pieceIdx == p && t.HasBlock(p, id.idx)
  {
    var ids := Ids(blocks);
    forall id
      ensures id in ids <==> id.pieceIdx == p && t.HasBlock(p, id.idx)
    {
      if id in ids {
        var k :| 0 <= k < |ids| && ids[k] == id;
      }
      if id.pieceIdx == p && t.HasBlock(p, id.idx) {
        assert ids[id.idx] == id;
      }
    }
  }

  lemma RequestNextOwed(t: Torrent, l: Local, r: Requester)
    requires t.Valid() && TableOk(t, l.shared.table) && OwedAtRest(l.shared.table, l.conn)
    requires Ready(r, t.blocksPerPiece) && RequestNext(l, r).Handled?
    ensures OwedOk(RequestNext(l, r).value.shared.table, RequestNext(l, r).value.conn)
  {
    NextIdleLaws(l.shared.table, l.conn.queue);
    match NextIdle(l.shared.table, l.conn.queue)
    case Exhausted =>
    case Reserved(_, i, rest) => ReservedOwed(t, l, r, i, rest);
  }

  lemma ReservedOwed(t: Torrent, l: Local, r: Requester, i: int, rest: seq<int>)
    requires t.Valid() && TableOk(t, l.shared.table) && OwedAtRest(l.shared.table, l.conn)
    requires Ready(r, t.blocksPerPiece) && i in l.shared.table && l.shared.table[i].status == Idle
    ensures OwedOk(ReserveFor(l, r, i, rest).shared.table, ReserveFor(l, r, i, rest).conn)
  {
    var blocks := l.shared.table[i].blocks;
    RequestAllCounts(t, i, blocks, r);
    IdsOfUniform(t, i, blocks);
    var l' := ReserveFor(l, r, i, rest);
    assert l'.conn.inFlight == {i};
    NewlyOwed(t, l.shared.table, l'.shared.table, l.conn.owed, Ids(blocks), l'.conn);
  }

  lemma NewlyOwed(t: Torrent, a: Table, b: Table, before: multiset<BlockId>, ids: seq<BlockId>, c: Conn)
    requires forall id :: id in before ==> id.pieceIdx in a && a[id.pieceIdx].status == Done
    requires forall i :: i in a && a[i].status == Done ==> i in b && b[i].status == Done
    requires c.owed == before + multiset(ids) && c.requester.Some? && |c.inFlight| == 1
    requires forall id, p :: p in c.inFlight ==> (id in ids <==> id.pieceIdx == p && 0 <= id.idx < t.blocksPerPiece)
    requires OpenBlocks(c.requester.value) == Range(t.blocksPerPiece)
    requires forall k :: k in Waiting(c) ==>
      var w := c.requester.value.waiting[k]; w.idx == k && w.pieceIdx in c.inFlight
    ensures OwedOk(b, c)
  {
    forall p, k | p in c.inFlight && k in OpenBlocks(c.requester.value)
      ensures BlockId(p, k) in c.owed
    {
      assert BlockId(p, k) in ids;
    }
    var p := Choose(c.inFlight);
    forall id | id in c.owed
      ensures id.pieceIdx in c.inFlight || (id.pieceIdx in b && b[id.pieceIdx].status == Done)
    {
      assert id in before || id in ids;
    }
  }

  lemma EnqueueOwed(t: Torrent, l: Local, queue: seq<int>, news: seq<int>)
    requires t.Valid() && LocalOk(t, l) && OwedOk(l.shared.table, l.conn) && MayAnnounce(l.conn)
    requires |queue| > 0 && Enqueue(l, queue, news).Handled?
    ensures OwedOk(Enqueue(l, queue, news).value.shared.table, Enqueue(l, queue, news).value.conn)
  {
    BusyIffInFlight(t, l.conn);
    if |l.conn.queue| == 0 {
      FreshRequesterReady(t, l, queue[0]);
      RequestNextOwed(t, l.(conn := l.conn.(queue := queue, announced := l.conn.announced + news)),
                      NewRequester(l.shared.table[queue[0]].BlockCount()));
    }
  }

  lemma MiddleOwed(t: Torrent, l: Local, p: int, k: int)
    requires t.Valid() && Awaiting(t, l, p, k) && OwedOk(l.shared.table, l.conn)
    ensures OwedOk(l.shared.table, MiddleConn(t, l, p, k))
  {
    InFlightIs(t, l, p, k);
    ReceiveCounts(l.conn.requester.value, t.blocksPerPiece, k);
    StillOwed(l.shared.table, l.conn, MiddleConn(t, l, p, k), p, k);
  }

  lemma StillOwed(table: Table, c: Conn, c': Conn, p: int, k: int)
    requires OwedOk(table, c) && c.inFlight == {p} == c'.inFlight && c.requester.Some? && c'.requester.Some?
    requires c'.owed == c.owed - multiset{BlockId(p, k)}
    requires OpenBlocks(c'.requester.value) == OpenBlocks(c.requester.value) - {k}
    requires c'.requester.value.waiting == c.requester.value.waiting - {k}
    ensures OwedOk(table, c')
  {
  }

  lemma LastOwed(t: Torrent, l: Local, p: int, k: int)
    requires t.Valid() && Awaiting(t, l, p, k) && OwedOk(l.shared.table, l.conn)
    requires Receive(l.conn.requester.value, k).blocksLeft == 0 && BlockStep(l, HonestBlock(t, p, k)).Handled?
    ensures var l' := BlockStep(l, HonestBlock(t, p, k)).value; OwedOk(l'.shared.table, l'.conn)
  {
    InFlightIs(t, l, p, k);
    BetweenPiecesOk(t, l, p, k);
    var l1, r := BetweenPieces(t, l, p, k), ResetRequester(l, k);
    CompletedTable(t, l.shared, p, k);
    assert OwedAtRest(l1.shared.table, l1.conn);
    LastBlockStep(t, l, p, k);
    if |Undone(l1.shared.table)| != 0 {
      RequestNextOwed(t, l1, r);
    }
  }

  lemma MisfireOwed(t: Torrent, l: Local, k: int)
    requires t.Valid() && LocalOk(t, l) && OwedOk(l.shared.table, l.conn) && k in Waiting(l.conn)
    ensures MisfireStep(l, k).Handled? && OwedOk(l.shared.table, MisfireStep(l, k).value.conn)
  {
    var r, c := l.conn.requester.value, MisfireStep(l, k).value.conn;
    assert k in OpenBlocks(r);
    assert OpenBlocks(c.requester.value) == OpenBlocks(r);
    assert Ids([r.waiting[k]]) == [r.waiting[k].Id()];
    OwedAgain(l.shared.table, l.conn, c, r.waiting[k].Id());
  }

  lemma OwedAgain(table: Table, c: Conn, c': Conn, id: BlockId)
    requires OwedOk(table, c) && c.inFlight == c'.inFlight && c.requester.Some? && c'.requester.Some?
    requires id.pieceIdx in c.inFlight && (c'.owed == c.owed || c'.owed == c.owed + multiset{id})
    requires OpenBlocks(c'.requester.value) == OpenBlocks(c.requester.value)
    requires forall k :: k in Waiting(c') ==>
      k in Waiting(c) && c'.requester.value.waiting[k] == c.requester.value.waiting[k]
    ensures OwedOk(table, c')
  {
  }

  lemma AnnouncementOwed(t: Torrent, l: Local, e: Event)
    requires t.Valid() && LocalOk(t, l) && OwedOk(l.shared.table, l.conn)
    requires (e.HaveMsg? || e.BitfieldMsg?) && Disciplined(t, l, e) && LocalStep(l, e).Handled?
    ensures OwedOk(LocalStep(l, e).value.shared.table, LocalStep(l, e).value.conn)
  {
    match e
    case HaveMsg(_, payload) =>
      var i := Uint32(payload);
      if i !in l.conn.queue {
        EnqueueOwed(t, l, l.conn.queue + [i], [i]);
      }
    case BitfieldMsg(_, payload) =>
      var indices := PieceIndices(payload, MaxIdx(l.shared.table.Keys)).value;
      if |indices| > 0 {
        MergedNotEmpty(l.conn.queue, indices);
        EnqueueOwed(t, l, UniqueMerge(l.conn.queue, indices), Newcomers(l.conn.queue, indices));
      }
  }

  lemma StepOwed(t: Torrent, l: Local, e: Event)
    requires t.Valid() && LocalOk(t, l) && OwedOk(l.shared.table, l.conn) && Disciplined(t, l, e)
    requires LocalStep(l, e).Handled?
    ensures OwedOk(LocalStep(l, e).value.shared.table, LocalStep(l, e).value.conn)
  {
    match e
    case PieceMsg(_, payload) =>
      var p, k :| t.HasBlock(p, k) && payload == HonestPayload(t, p, k) && p in l.conn.inFlight && Missing(l.conn, k);
      StepOfReply(t, l, p, k);
      if Receive(l.conn.requester.value, k).blocksLeft != 0 {
        MiddleStep(t, l, p, k);
        MiddleOwed(t, l, p, k);
      } else {
        LastOwed(t, l, p, k);
      }
    case Misfire(_, k) => MisfireOwed(t, l, k);
    case _ => AnnouncementOwed(t, l, e);
  }

  lemma OthersOwed(a: Table, b: Table, before: set<int>, after: set<int>, d: Conn)
    requires StatusMoves(a, b, before, after) && OwedOk(a, d)
    requires forall p :: p in before && p in a ==> a[p].status == Downloading
    ensures OwedOk(b, d)
  {
    forall id | id in d.owed && id.pieceIdx !in d.inFlight
      ensures id.pieceIdx in b && b[id.pieceIdx].status == Done
    {
      assert id.pieceIdx in a && a[id.pieceIdx].status == Done;
    }
  }

  ghost predicate AllOwedOk(w: World) {
    forall c :: 0 <= c < |w.conns| ==> OwedOk(w.shared.table, w.conns[c])
  }

  lemma AdvanceOwed(t: Torrent, w: World, e: Event)
    requires Inv(t, w) && AllOwedOk(w) && e.conn < |w.conns| && Disciplined(t, At(w, e.conn), e)
    ensures Advance(w, e).Handled? && AllOwedOk(Advance(w, e).value)
  {
    var l := At(w, e.conn);
    ConnectionIsOk(t, w, e.conn);
    DisciplinedIsFine(t, l, e);
    AdvanceIsLocal(w, e);
    if LocalStep(l, e).Handled? {
      StepOwed(t, l, e);
      AllOwedAfter(w, e.conn, LocalStep(l, e).value);
    }
  }

  lemma AllOwedAfter(w: World, c: nat, l: Local)
    requires AllOwedOk(w) && c < |w.conns| && OwedOk(l.shared.table, l.conn)
    requires StatusMoves(w.shared.table, l.shared.table, w.conns[c].inFlight, l.conn.inFlight)
    requires forall p :: p in w.conns[c].inFlight && p in w.shared.table ==> w.shared.table[p].status == Downloading
    ensures AllOwedOk(Replace(w, c, l))
  {
    forall d | 0 <= d < |w.conns| && d != c
      ensures OwedOk(l.shared.table, w.conns[d])
    {
      OthersOwed(w.shared.table, l.shared.table, w.conns[c].inFlight, l.conn.inFlight, w.conns[d]);
    }
  }

  lemma DisciplinedIsHonest(t: Torrent, l: Local, e: Event)
    requires t.Valid() && Disciplined(t, l, e)
    ensures HonestContent(t, e) && WellTimed(l, e)
  {
    if e.PieceMsg? && |e.payload| > 8 {
      var p, k :| t.HasBlock(p, k) && e.payload == HonestPayload(t, p, k) && p in l.conn.inFlight && Missing(l.conn, k);
      assert t.HasBlock(p, k) && e.payload == HonestPayload(t, p, k);
    }
  }

  /** In a disciplined run the books balance, and the REQUESTs unanswered are as they should be. */
  lemma {:induction false} DisciplinedRunsAreHonest(t: Torrent, w: World, es: seq<Event>)
    requires Inv(t, w) && AllOwedOk(w) && DisciplinedRun(t, w, es)
    ensures HonestRun(t, w, es)
    ensures Run(w, es).Handled? && AllOwedOk(Run(w, es).value)
    decreases |es|
  {
    if |es| > 0 {
      DisciplinedIsHonest(t, At(w, es[0].conn), es[0]);
      DisciplinedAdvance(t, w, es[0]);
      AdvanceOwed(t, w, es[0]);
      DisciplinedRunsAreHonest(t, Advance(w, es[0]).value, es[1..]);
    }
  }

  lemma ReachedIsAccounted(t: Torrent, w0: World, es: seq<Event>, w: World)
    requires t.Valid() && Initial(t, w0) && LeadsTo(t, w0, es, w)
    ensures AllOwedOk(w) && Accounts(t, w) && w.shared.saved == RepliesIn(es)
  {
    InitialIsFine(t, w0);
    InitialAccounts(t, w0);
    DisciplinedRunsAreHonest(t, w0, es);
    RunAccounts(t, w0, es);
    RunSaves(t, w0, es);
    assert [] + RepliesIn(es) == RepliesIn(es);
  }

  lemma OpenIsFirstAnswer(t: Torrent, w: World, c: nat, p: int, k: int)
    requires Inv(t, w) && AllOwedOk(w) && Accounts(t, w) && c < |w.conns| && t.HasBlock(p, k)
    requires p in w.conns[c].inFlight && Missing(w.conns[c], k)
    ensures BlockId(p, k) in w.conns[c].owed && BlockId(p, k) !in w.shared.saved
  {
    ConnectionIsOk(t, w, c);
    assert k in OpenBlocks(w.conns[c].requester.value);
    InFlightIs(t, At(w, c), p, k);
  }

  lemma FirstAnswerIsOpen(t: Torrent, w: World, c: nat, p: int, k: int)
    requires Inv(t, w) && AllOwedOk(w) && Accounts(t, w) && c < |w.conns| && t.HasBlock(p, k)
    requires BlockId(p, k) in w.conns[c].owed && BlockId(p, k) !in w.shared.saved
    ensures p in w.conns[c].inFlight && Missing(w.conns[c], k)
  {
    ConnectionIsOk(t, w, c);
    if AllDone(w.shared.table) {
      BalanceBounds(t, w);
      AllBlocksSaved(t, w.shared.saved, p, k);
    } else {
      NotInDirectory(t, w.shared.files.blocksDir, w.shared.saved, p, k);
    }
  }

  lemma NotInDirectory(t: Torrent, dir: Directory, saved: seq<BlockId>, p: int, k: int)
    requires t.Valid() && HoldsCopies(t, dir, saved) && t.HasBlock(p, k) && BlockId(p, k) !in saved
    ensures BlockName(p, k) !in dir
  {
    if BlockName(p, k) in dir {
      var id :| id in saved && BlockName(p, k) == BlockName(id.pieceIdx, id.idx);
      DistinctNames(t, id, BlockId(p, k));
    }
  }

  lemma AskedIffOwed(t: Torrent, w0: World, es: seq<Event>, w: World, c: nat, id: BlockId)
    requires t.Valid() && Initial(t, w0) && Run(w0, es) == Handled(w) && c < |w.conns|
    ensures id in w.conns[c].owed ==> id in RequestsIn(w.conns[c].sent)
    ensures id in RequestsIn(w.conns[c].sent) && id !in RepliesIn(es) ==> id in w.conns[c].owed
  {
    OnlyBlocksAreAskedFor(t, w0, es, w, c);
    RepliesAreAmongAll(c, es);
    if id in w.conns[c].owed {
      assert id in Asked(w.conns[c]);
    }
    if id in RequestsIn(w.conns[c].sent) {
      assert id in Asked(w.conns[c]);
    }
  }

  lemma DisciplinedReplyOwed(t: Torrent, w: World, past: seq<Event>, e: Event)
    requires Inv(t, w) && AllOwedOk(w) && Accounts(t, w) && AllExact(w, past)
    requires e.conn < |w.conns| && Disciplined(t, At(w, e.conn), e)
    ensures Answers(w, past, e)
  {
    if e.PieceMsg? && |e.payload| > 8 {
      var c := w.conns[e.conn];
      var p, k :| t.HasBlock(p, k) && e.payload == HonestPayload(t, p, k) && p in c.inFlight && Missing(c, k);
      OpenIsFirstAnswer(t, w, e.conn, p, k);
      BringsBlock(t, e, p, k);
    }
    AnswersIffOwed(w, past, e);
  }

  lemma BringsBlock(t: Torrent, e: Event, p: int, k: int)
    requires t.Valid() && t.HasBlock(p, k) && e.PieceMsg? && e.payload == HonestPayload(t, p, k)
    ensures ReplyIn(e) == [BlockId(p, k)] && multiset(ReplyIn(e)) == multiset{BlockId(p, k)}
  {
    ReplyIsUnderstood(t, p, k);
  }

  lemma {:induction false} DisciplinedAnswers(t: Torrent, w: World, past: seq<Event>, es: seq<Event>)
    requires Inv(t, w) && AllOwedOk(w) && Accounts(t, w) && DisciplinedRun(t, w, es)
    requires RequestsOk(t, w, past) && AllExact(w, past)
    ensures AnswersRequests(w, past, es)
    decreases |es|
  {
    if |es| > 0 {
      var e := es[0];
      DisciplinedReplyOwed(t, w, past, e);
      DisciplinedAdvance(t, w, e);
      AdvanceOwed(t, w, e);
      DisciplinedIsHonest(t, At(w, e.conn), e);
      AdvanceAccounts(t, w, e);
      AdvanceRequests(t, w, past, e);
      AdvanceExact(t, w, past, e);
      DisciplinedAnswers(t, Advance(w, e).value, past + [e], es[1..]);
    }
  }

  /** In a disciplined run every reply answers a REQUEST sent on its connection, and the REQUESTs sent for a block
      are those answered by a reply and those still owed. */
  lemma DisciplinedRunsAnswer(t: Torrent, w0: World, es: seq<Event>, w: World, c: nat)
    requires t.Valid() && Initial(t, w0) && LeadsTo(t, w0, es, w) && c < |w.conns|
    ensures AnswersRequests(w0, [], es)
    ensures multiset(RequestsIn(w.conns[c].sent)) == w.conns[c].owed + multiset(RepliesTo(c, es))
  {
    InitialIsFine(t, w0);
    InitialAccounts(t, w0);
    InitialRequests(t, w0);
    DisciplinedAnswers(t, w0, [], es);
    RequestsAreAnsweredOrOwed(t, w0, es, w, c);
  }

  /** Discipline in terms of messages.  In every state reached by a disciplined run, a reply with block `k` of
      piece `p` is in order exactly if a REQUEST for that block has been sent on the same connection and no
      earlier reply brought the block. */
  lemma FirstAnswersAreDisciplined(t: Torrent, w0: World, es: seq<Event>, w: World, c: nat, p: int, k: int)
    requires t.Valid() && Initial(t, w0) && LeadsTo(t, w0, es, w) && c < |w.conns| && t.HasBlock(p, k)
    ensures Disciplined(t, At(w, c), PieceMsg(c, HonestPayload(t, p, k)))
       <==> BlockId(p, k) in RequestsIn(w.conns[c].sent) && BlockId(p, k) !in RepliesIn(es)
  {
    ReachedIsFine(t, w0, es, w);
    AskedIffOwed(t, w0, es, w, c, BlockId(p, k));
    ReachedIsAccounted(t, w0, es, w);
    DisciplinedReplyIff(t, At(w, c), c, p, k);
    if p in w.conns[c].inFlight && Missing(w.conns[c], k) {
      OpenIsFirstAnswer(t, w, c, p, k);
    }
    if BlockId(p, k) in w.conns[c].owed && BlockId(p, k) !in w.shared.saved {
      FirstAnswerIsOpen(t, w, c, p, k);
    }
  }

  lemma DisciplinedReplyIff(t: Torrent, l: Local, c: nat, p: int, k: int)
    requires t.Valid() && t.HasBlock(p, k)
    ensures Disciplined(t, l, PieceMsg(c, HonestPayload(t, p, k))) <==> p in l.conn.inFlight && Missing(l.conn, k)
  {
    ReplyIsUnderstood(t, p, k);
    forall q, j | t.HasBlock(q, j) && HonestPayload(t, p, k) == HonestPayload(t, q, j)
      ensures q == p && j == k
    {
      ReplyIsUnderstood(t, q, j);
    }
  }
}
