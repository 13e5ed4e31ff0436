/** Reservations over whole runs, and the REQUESTs sent for them. */
module ProtocolReservations {
  import opened Bytes
  import opened Pieces
  import opened SliceUtil
  import opened Cardinality
  import opened Arithmetic
  import opened Addressing
  import opened PeerMessages
  import opened BitfieldMessages
  import opened Protocol
  import opened ProtocolInvariant
  import opened ProtocolExactness
  import opened ProtocolTotals
  import opened ProtocolRuns

  // ---------- runs without any discipline ----------

  /** Reserved pieces are known, not idle, and logged once. */
  ghost predicate LogSound(s: Shared) {
    NoDuplicates(s.reservations) && forall i :: i in s.reservations ==> i in s.table && s.table[i].status != Idle
  }

  /** Nothing is given back, un-finished, handed to another downloader or struck from the log; the pieces keep
      their blocks; and a finished file, which there is once the download has been finalised, stays as it is and
      is seeded. */
  ghost predicate Forward(a: Shared, b: Shared) {
    && a.table.Keys == b.table.Keys && a.reservations <= b.reservations && a.saved <= b.saved
    && a.finalizations <= b.finalizations && FileStays(a, b)
    && (forall i :: i in a.table ==> b.table[i].idx == a.table[i].idx && b.table[i].blocks == a.table[i].blocks)
    && forall i :: i in a.table && a.table[i].status != Idle ==>
         b.table[i].status != Idle && b.table[i].downloader == a.table[i].downloader
         && (a.table[i].status == Done ==> b.table[i].status == Done)
  }

  ghost predicate FileStays(a: Shared, b: Shared) {
    && (a.files.finalFile.Some? ==> b.files.finalFile == a.files.finalFile)
    && (a.files.isSeeding ==> b.files.isSeeding)
    && (a.finalizations < b.finalizations ==> b.files.finalFile.Some? && b.files.isSeeding)
  }

  lemma ForwardComposes(a: Shared, b: Shared, c: Shared)
    requires Forward(a, b) && Forward(b, c)
    ensures Forward(a, c)
  {
  }

  lemma RequestNextForward(l: Local, r: Requester)
    requires RequestNext(l, r).Handled? && LogSound(l.shared)
    ensures Forward(l.shared, RequestNext(l, r).value.shared) && LogSound(RequestNext(l, r).value.shared)
  {
    NextIdleLaws(l.shared.table, l.conn.queue);
    match NextIdle(l.shared.table, l.conn.queue)
    case Reserved(_, i, _) => assert i !in l.shared.reservations;
    case _ =>
  }

  lemma EnqueueForward(l: Local, queue: seq<int>, news: seq<int>)
    requires |queue| > 0 && Enqueue(l, queue, news).Handled? && LogSound(l.shared)
    ensures Forward(l.shared, Enqueue(l, queue, news).value.shared) && LogSound(Enqueue(l, queue, news).value.shared)
  {
    if |l.conn.queue| == 0 {
      RequestNextForward(l.(conn := l.conn.(queue := queue, announced := l.conn.announced + news)),
                         NewRequester(l.shared.table[queue[0]].BlockCount()));
    }
  }

  lemma BlockForward(l: Local, b: Block)
    requires BlockStep(l, b).Handled? && LogSound(l.shared)
    ensures Forward(l.shared, BlockStep(l, b).value.shared) && LogSound(BlockStep(l, b).value.shared)
  {
    var r := Receive(l.conn.requester.value, b.idx);
    if r.blocksLeft == 0 {
      var table := Finish(l.shared.table, b.pieceIdx);
      var l1 := Accept(l, b);
      var s := l1.shared.(table := table);
      assert Forward(l.shared, s) && LogSound(s);
      if |Undone(table)| != 0 {
        RequestNextForward(Local(s, l1.conn.(inFlight := l1.conn.inFlight - {b.pieceIdx})), r.(blocksLeft := r.total));
      }
    }
  }

  lemma StepForward(l: Local, e: Event)
    requires LocalStep(l, e).Handled? && LogSound(l.shared)
    ensures Forward(l.shared, LocalStep(l, e).value.shared) && LogSound(LocalStep(l, e).value.shared)
  {
    match e
    case HaveMsg(_, payload) =>
      if Uint32(payload) !in l.conn.queue {
        EnqueueForward(l, l.conn.queue + [Uint32(payload)], [Uint32(payload)]);
      }
    case BitfieldMsg(_, payload) =>
      var indices := PieceIndices(payload, MaxIdx(l.shared.table.Keys)).value;
      if |indices| > 0 {
        MergedNotEmpty(l.conn.queue, indices);
        EnqueueForward(l, UniqueMerge(l.conn.queue, indices), Newcomers(l.conn.queue, indices));
      }
    case PieceMsg(_, payload) => BlockForward(l, ReceivedBlock(payload).value);
    case Misfire(_, _) =>
  }

  lemma AdvanceForward(w: World, e: Event)
    requires Advance(w, e).Handled? && LogSound(w.shared)
    ensures Forward(w.shared, Advance(w, e).value.shared) && LogSound(Advance(w, e).value.shared)
  {
    if e.conn < |w.conns| {
      AdvanceIsLocal(w, e);
      if LocalStep(At(w, e.conn), e).Handled? {
        StepForward(At(w, e.conn), e);
      }
    }
  }

  /** Exclusive reservation over whole runs, whatever the messages: a piece once reserved is never reserved
      again, stays with its downloader, and once done stays done.  The finished file never changes. */
  lemma {:induction false} ReservationIsForGood(w: World, es: seq<Event>)
    requires LogSound(w.shared) && Run(w, es).Handled?
    ensures Forward(w.shared, Run(w, es).value.shared) && LogSound(Run(w, es).value.shared)
    decreases |es|
  {
    if |es| > 0 {
      var w' := Advance(w, es[0]).value;
      AdvanceForward(w, es[0]);
      ReservationIsForGood(w', es[1..]);
      ForwardComposes(w.shared, w'.shared, Run(w, es).value.shared);
    }
  }

  // ---------- how many requests are sent ----------

  function FirstRequests(c: Conn): int { |c.sent| - c.repeats }

  function AllRequests(c: Conn): int { |c.sent| }

  lemma {:induction false} RequestsBounded(conns: seq<Conn>)
    requires forall c :: 0 <= c < |conns| ==> MisfiresOk(conns[c])
    ensures Total(conns, AllRequests) <= Total(conns, FirstRequests) + ALLOWED_MISFIRES * |conns|
  {
    if |conns| > 0 {
      RequestsBounded(conns[..|conns| - 1]);
    }
  }

  /** Either nothing was reserved or requested, or one piece was reserved and each of its `n` blocks requested. */
  ghost predicate Accounted(a: Local, b: Local, n: nat) {
    var reserved := |b.shared.reservations| - |a.shared.reservations|;
    || (reserved == 0 && FirstRequests(b.conn) == FirstRequests(a.conn))
    || (reserved == 1 && FirstRequests(b.conn) == FirstRequests(a.conn) + n)
  }

  lemma RequestNextAccounted(l: Local, r: Requester, n: nat)
    requires RequestNext(l, r).Handled?
    requires forall i :: i in l.shared.table ==> |l.shared.table[i].blocks| == n
    ensures Accounted(l, RequestNext(l, r).value, n)
  {
  }

  lemma EnqueueAccounted(l: Local, queue: seq<int>, news: seq<int>, n: nat)
    requires |queue| > 0 && Enqueue(l, queue, news).Handled?
    requires forall i :: i in l.shared.table ==> |l.shared.table[i].blocks| == n
    ensures Accounted(l, Enqueue(l, queue, news).value, n)
  {
    if |l.conn.queue| == 0 {
      RequestNextAccounted(l.(conn := l.conn.(queue := queue, announced := l.conn.announced + news)),
                           NewRequester(l.shared.table[queue[0]].BlockCount()), n);
    }
  }

  lemma BlockAccounted(l: Local, b: Block, n: nat)
    requires BlockStep(l, b).Handled?
    requires forall i :: i in l.shared.table ==> |l.shared.table[i].blocks| == n
    ensures Accounted(l, BlockStep(l, b).value, n)
  {
    var r := Receive(l.conn.requester.value, b.idx);
    if r.blocksLeft == 0 {
      var table := Finish(l.shared.table, b.pieceIdx);
      var l1 := Accept(l, b);
      if |Undone(table)| != 0 {
        RequestNextAccounted(Local(l1.shared.(table := table), l1.conn.(inFlight := l1.conn.inFlight - {b.pieceIdx})),
                             r.(blocksLeft := r.total), n);
      }
    }
  }

  lemma AllCountsAre(t: Torrent, table: Table)
    requires t.Valid() && TableOk(t, table)
    ensures forall i :: i in table ==> |table[i].blocks| == t.blocksPerPiece
  {
    forall i | i in table
      ensures |table[i].blocks| == t.blocksPerPiece
    {
      assert t.UniformBlocks(i, table[i].blocks);
    }
  }

  lemma StepAccounted(t: Torrent, l: Local, e: Event)
    requires t.Valid() && TableOk(t, l.shared.table) && LocalStep(l, e).Handled?
    ensures Accounted(l, LocalStep(l, e).value, t.blocksPerPiece)
  {
    AllCountsAre(t, l.shared.table);
    match e
    case HaveMsg(_, payload) =>
      if Uint32(payload) !in l.conn.queue {
        EnqueueAccounted(l, l.conn.queue + [Uint32(payload)], [Uint32(payload)], t.blocksPerPiece);
      }
    case BitfieldMsg(_, payload) =>
      var indices := PieceIndices(payload, MaxIdx(l.shared.table.Keys)).value;
      if |indices| > 0 {
        MergedNotEmpty(l.conn.queue, indices);
        EnqueueAccounted(l, UniqueMerge(l.conn.queue, indices), Newcomers(l.conn.queue, indices), t.blocksPerPiece);
      }
    case PieceMsg(_, payload) => BlockAccounted(l, ReceivedBlock(payload).value, t.blocksPerPiece);
    case Misfire(_, _) =>
  }

  /** First requests over all connections: one per block of every reserved piece. */
  ghost predicate Balanced(t: Torrent, w: World) {
    Total(w.conns, FirstRequests) == t.blocksPerPiece * |w.shared.reservations|
  }

  lemma AdvanceBalanced(t: Torrent, w: World, e: Event)
    requires t.Valid() && TableOk(t, w.shared.table) && Balanced(t, w)
    requires e.conn < |w.conns| && Advance(w, e).Handled?
    ensures Balanced(t, Advance(w, e).value)
  {
    AdvanceIsLocal(w, e);
    if LocalStep(At(w, e.conn), e).Handled? {
      StepAccounted(t, At(w, e.conn), e);
      ReplaceBalanced(t, w, e.conn, LocalStep(At(w, e.conn), e).value);
    }
  }

  lemma ReplaceBalanced(t: Torrent, w: World, c: nat, l: Local)
    requires Balanced(t, w) && c < |w.conns| && Accounted(At(w, c), l, t.blocksPerPiece)
    ensures Balanced(t, Replace(w, c, l))
  {
    TotalUpdate(w.conns, FirstRequests, c, l.conn);
    assert t.blocksPerPiece * (|w.shared.reservations| + 1)
        == t.blocksPerPiece * |w.shared.reservations| + t.blocksPerPiece;
  }

  lemma {:induction false} RunsStayBalanced(t: Torrent, w: World, es: seq<Event>)
    requires Inv(t, w) && Balanced(t, w) && DisciplinedRun(t, w, es)
    ensures Run(w, es).Handled? && Balanced(t, Run(w, es).value)
    decreases |es|
  {
    if |es| > 0 {
      DisciplinedAdvance(t, w, es[0]);
      AdvanceBalanced(t, w, es[0]);
      RunsStayBalanced(t, Advance(w, es[0]).value, es[1..]);
    }
  }

  /** Re-requesting terminates.  In a disciplined run of any length the client sends no more REQUEST messages
      than one per block of the torrent and three per connection; a connection's own requests are its first
      requests and one for each of its first three misfires, and its peer is marked weak exactly when it
      misfires more often than that. */
  lemma RequestsAreBounded(t: Torrent, w0: World, es: seq<Event>, w: World)
    requires t.Valid() && Initial(t, w0) && LeadsTo(t, w0, es, w)
    ensures Total(w.conns, AllRequests) <= t.blocksPerPiece * t.pieces + ALLOWED_MISFIRES * |w.conns|
    ensures forall c :: 0 <= c < |w.conns| ==>
      && w.conns[c].repeats
         == (if w.conns[c].misfires < ALLOWED_MISFIRES then w.conns[c].misfires else ALLOWED_MISFIRES)
      && (w.conns[c].weak <==> w.conns[c].misfires > ALLOWED_MISFIRES)
      && w.conns[c].misfires <= FirstRequests(w.conns[c]) + ALLOWED_MISFIRES
  {
    InitialIsFine(t, w0);
    TotalOfZeros(w0.conns, FirstRequests);
    RunsStayBalanced(t, w0, es);
    RunsKeepInv(t, w0, es);
    forall c | 0 <= c < |w.conns|
      ensures MisfiresOk(w.conns[c])
    {
      assert ConnOk(t, w.shared, w.conns[c]);
    }
    RequestsBounded(w.conns);
    DistinctIndices(w.shared.reservations, t.pieces);
    MulMonotoneRight(t.blocksPerPiece, |w.shared.reservations|, t.pieces);
  }
}
