/** Facts about whole runs of the protocol: any number of connections, any interleaving of their steps. */
module ProtocolRuns {
  import opened Wrappers
  import opened Pieces
  import opened Addressing
  import opened FileInfos
  import opened Assembly
  import opened Serving
  import opened PeerMessages
  import opened Protocol
  import opened ProtocolInvariant
  import opened ProtocolSteps
  import opened ProtocolReplies
  import opened ProtocolExactness

  // ---------- runs ----------

  /** The state after the events `es`, unless the client crashes or blocks on the way. */
  ghost function Run(w: World, es: seq<Event>): Outcome<World>
    decreases |es|
  {
    if |es| == 0 then Handled(w)
    else match Advance(w, es[0])
         case Handled(w') => Run(w', es[1..])
         case failed => failed
  }

  lemma RunOne(w: World, e: Event, es: seq<Event>)
    requires Advance(w, e).Handled?
    ensures Run(w, [e] + es) == Run(Advance(w, e).value, es)
  {
    assert ([e] + es)[1..] == es;
  }

  lemma {:induction false} RunAppend(w: World, es: seq<Event>, fs: seq<Event>)
    requires Run(w, es).Handled?
    ensures Run(w, es + fs) == Run(Run(w, es).value, fs)
    decreases |es|
  {
    if |es| == 0 {
      assert es + fs == fs;
    } else {
      assert (es + fs)[1..] == es[1..] + fs;
      RunAppend(Advance(w, es[0]).value, es[1..], fs);
    }
  }

  /** Each event of the run obeys the discipline in the state in which it happens. */
  ghost predicate DisciplinedRun(t: Torrent, w: World, es: seq<Event>)
    requires t.Valid()
    decreases |es|
  {
    |es| == 0 ||
    (es[0].conn < |w.conns| && Disciplined(t, At(w, es[0].conn), es[0])
     && (Advance(w, es[0]).Handled? ==> DisciplinedRun(t, Advance(w, es[0]).value, es[1..])))
  }

  lemma DisciplinedCons(t: Torrent, w: World, e: Event, es: seq<Event>, all: seq<Event>)
    requires t.Valid() && e.conn < |w.conns| && Disciplined(t, At(w, e.conn), e) && all == [e] + es
    requires Advance(w, e).Handled? ==> DisciplinedRun(t, Advance(w, e).value, es)
    ensures DisciplinedRun(t, w, all)
  {
    assert all[0] == e && all[1..] == es;
  }

  lemma {:induction false} DisciplinedAppend(t: Torrent, w: World, es: seq<Event>, fs: seq<Event>, all: seq<Event>)
    requires t.Valid() && Run(w, es).Handled? && all == es + fs
    requires DisciplinedRun(t, w, es) && DisciplinedRun(t, Run(w, es).value, fs)
    ensures DisciplinedRun(t, w, all)
    decreases |es|
  {
    if |es| == 0 {
      assert all == fs;
    } else {
      FirstAndRest(es, fs);
      DisciplinedAppend(t, Advance(w, es[0]).value, es[1..], fs, es[1..] + fs);
      DisciplinedCons(t, w, es[0], es[1..] + fs, all);
    }
  }

  lemma FirstAndRest(es: seq<Event>, fs: seq<Event>)
    requires |es| > 0
    ensures es + fs == [es[0]] + (es[1..] + fs)
  {
  }

  function Start(t: Torrent, peerIds: seq<string>): World
    requires t.Valid()
  {
    World(Shared(t.Table(false), Files(map[], None, false), [], [], 0),
          seq(|peerIds|, i requires 0 <= i < |peerIds| => NewConn(peerIds[i])))
  }

  /** A client that has just been set up for the torrent, with any number of connections: every piece idle,
      nothing saved, no message seen. */
  ghost predicate Initial(t: Torrent, w: World)
    requires t.Valid()
  {
    && TableOk(t, w.shared.table) && (forall i :: i in w.shared.table ==> w.shared.table[i].status == Idle)
    && w.shared == Shared(w.shared.table, Files(map[], None, false), [], [], 0)
    && forall c :: 0 <= c < |w.conns| ==> w.conns[c] == NewConn(w.conns[c].peerId)
  }

  /** The table that `NewFileInfo` builds is such a beginning. */
  lemma StartIsInitial(t: Torrent, peerIds: seq<string>)
    requires t.Valid()
    ensures Initial(t, Start(t, peerIds))
  {
    var w := Start(t, peerIds);
    forall i | 0 <= i < t.pieces
      ensures i in w.shared.table && t.UniformBlocks(i, w.shared.table[i].blocks) && w.shared.table[i].status == Idle
    {
      UniformPiece(t, i, false);
    }
  }

  lemma InitialIsFine(t: Torrent, w: World)
    requires t.Valid() && Initial(t, w)
    ensures Inv(t, w)
  {
    assert 0 in w.shared.table && w.shared.table[0].status == Idle;
  }

  /** No disciplined run crashes or blocks, and the invariant holds after every step. */
  lemma {:induction false} RunsKeepInv(t: Torrent, w: World, es: seq<Event>)
    requires Inv(t, w) && DisciplinedRun(t, w, es)
    ensures Run(w, es).Handled? && Inv(t, Run(w, es).value)
    decreases |es|
  {
    if |es| > 0 {
      DisciplinedAdvance(t, w, es[0]);
      RunsKeepInv(t, Advance(w, es[0]).value, es[1..]);
    }
  }

  // ---------- what the invariant means for the user ----------

  /** The events may be delivered one after the other, and this is where they lead. */
  ghost predicate LeadsTo(t: Torrent, w: World, es: seq<Event>, w': World)
    requires t.Valid()
  {
    DisciplinedRun(t, w, es) && Run(w, es) == Handled(w')
  }

  lemma ReachedIsFine(t: Torrent, w0: World, es: seq<Event>, w: World)
    requires t.Valid() && Initial(t, w0) && LeadsTo(t, w0, es, w)
    ensures Inv(t, w)
  {
    InitialIsFine(t, w0);
    RunsKeepInv(t, w0, es);
  }

  /** Download correctness.  In every state reached by a run, finalisation has happened exactly if all pieces are
      done, it has then happened once, and the finished file is the seeder's file byte for byte. */
  lemma DownloadIsCorrect(t: Torrent, w0: World, es: seq<Event>, w: World)
    requires t.Valid() && Initial(t, w0) && LeadsTo(t, w0, es, w)
    ensures w.shared.finalizations > 0 <==> AllDone(w.shared.table)
    ensures w.shared.finalizations <= 1
    ensures w.shared.finalizations > 0 ==> w.shared.files.finalFile == Some(t.content) && w.shared.files.isSeeding
    ensures w.shared.finalizations == 0 ==> w.shared.files.finalFile == None && !w.shared.files.isSeeding
  {
    ReachedIsFine(t, w0, es, w);
  }

  ghost predicate Quiescent(w: World) {
    forall c :: 0 <= c < |w.conns| ==> w.conns[c].inFlight == {}
  }

  ghost predicate Announced(w: World, i: int) {
    exists c :: 0 <= c < |w.conns| && i in w.conns[c].announced
  }

  /** Every piece of the torrent has been announced by somebody. */
  ghost predicate Covered(t: Torrent, w: World) {
    forall i :: 0 <= i < t.pieces ==> Announced(w, i)
  }

  /** Quiescence means finished.  When no connection has a piece in flight, every piece ever announced on any
      connection is done; if the announcements cover the torrent, the download is complete. */
  lemma QuiescenceMeansFinished(t: Torrent, w0: World, es: seq<Event>, w: World)
    requires t.Valid() && Initial(t, w0) && LeadsTo(t, w0, es, w) && Quiescent(w)
    ensures forall c, i :: 0 <= c < |w.conns| && i in w.conns[c].announced ==>
      i in w.shared.table && w.shared.table[i].status == Done
    ensures Covered(t, w) ==> w.shared.finalizations == 1 && w.shared.files.finalFile == Some(t.content)
  {
    ReachedIsFine(t, w0, es, w);
    QuiescentIsFinished(t, w);
  }

  lemma QuiescentIsFinished(t: Torrent, w: World)
    requires Inv(t, w) && Quiescent(w)
    ensures forall c, i :: 0 <= c < |w.conns| && i in w.conns[c].announced ==>
      i in w.shared.table && w.shared.table[i].status == Done
    ensures Covered(t, w) ==> w.shared.finalizations == 1 && w.shared.files.finalFile == Some(t.content)
  {
    forall c, i | 0 <= c < |w.conns| && i in w.conns[c].announced
      ensures i in w.shared.table && w.shared.table[i].status == Done
    {
      AnnouncedIsDone(t, w, c, i);
    }
    if Covered(t, w) {
      forall i | i in w.shared.table
        ensures w.shared.table[i].status == Done
      {
        assert Announced(w, i);
        var c :| 0 <= c < |w.conns| && i in w.conns[c].announced;
      }
    }
  }

  lemma AnnouncedIsDone(t: Torrent, w: World, c: nat, i: int)
    requires Inv(t, w) && Quiescent(w) && c < |w.conns| && i in w.conns[c].announced
    ensures i in w.shared.table && w.shared.table[i].status == Done
  {
    var conn := w.conns[c];
    assert ConnOk(t, w.shared, conn);
    match w.shared.table[i].status
    case Idle => assert i in conn.queue;
    case Downloading =>
    case Done =>
  }

  ghost predicate InFlightSomewhere(w: World, p: int) {
    exists c :: 0 <= c < |w.conns| && p in w.conns[c].inFlight
  }

  /** A connection has at most one piece in flight, a piece is in flight on at most one connection, and the
      pieces in flight are those being downloaded. */
  ghost predicate OneToOne(w: World) {
    && (forall c, p :: 0 <= c < |w.conns| && p in w.conns[c].inFlight ==> w.conns[c].inFlight == {p})
    && Exclusive(w.conns)
    && (forall c, p :: 0 <= c < |w.conns| && p in w.conns[c].inFlight ==> p in w.shared.table)
    && forall p :: p in w.shared.table ==> (w.shared.table[p].status == Downloading <==> InFlightSomewhere(w, p))
  }

  /** Pieces being downloaded and connections with a piece in flight correspond one to one. */
  lemma DownloadingIffInFlight(t: Torrent, w0: World, es: seq<Event>, w: World)
    requires t.Valid() && Initial(t, w0) && LeadsTo(t, w0, es, w)
    ensures OneToOne(w)
  {
    ReachedIsFine(t, w0, es, w);
    forall c, p | 0 <= c < |w.conns| && p in w.conns[c].inFlight
      ensures w.conns[c].inFlight == {p} && p in w.shared.table && w.shared.table[p].status == Downloading
    {
      OnlyPieceInFlight(t, w, c, p);
    }
    forall p | p in w.shared.table && w.shared.table[p].status == Downloading
      ensures InFlightSomewhere(w, p)
    {
    }
  }

  lemma OnlyPieceInFlight(t: Torrent, w: World, c: nat, p: int)
    requires Inv(t, w) && c < |w.conns| && p in w.conns[c].inFlight
    ensures w.conns[c].inFlight == {p} && p in w.shared.table && w.shared.table[p].status == Downloading
  {
    assert ConnOk(t, w.shared, w.conns[c]);
    forall q
      ensures q in w.conns[c].inFlight <==> q == p
    {
    }
  }

  /** The connection's counter is the number of blocks of piece `p` that are not yet in the directory. */
  ghost predicate CountsMissing(t: Torrent, w: World, c: nat, p: int)
    requires c < |w.conns|
  {
    w.conns[c].requester.Some?
    && w.conns[c].requester.value.blocksLeft == |Absent(t, w.shared.files.blocksDir, p)| > 0
  }

  /** While a piece is in flight the counter agrees with the directory and is never zero between steps. */
  lemma CounterAgrees(t: Torrent, w0: World, es: seq<Event>, w: World)
    requires t.Valid() && Initial(t, w0) && LeadsTo(t, w0, es, w)
    ensures forall c, p :: 0 <= c < |w.conns| && p in w.conns[c].inFlight ==> CountsMissing(t, w, c, p)
  {
    ReachedIsFine(t, w0, es, w);
    forall c, p | 0 <= c < |w.conns| && p in w.conns[c].inFlight
      ensures CountsMissing(t, w, c, p)
    {
      CountedAgainstDirectory(t, w, c, p);
    }
  }

  lemma CountedAgainstDirectory(t: Torrent, w: World, c: nat, p: int)
    requires Inv(t, w) && c < |w.conns| && p in w.conns[c].inFlight
    ensures CountsMissing(t, w, c, p)
  {
    ConnectionIsOk(t, w, c);
    OpenIsAbsent(t, w.shared.files.blocksDir, w.conns[c], p);
  }

  /** No announced piece is forgotten.  A piece announced on a connection and still idle is in its queue,
      which holds no piece twice; a connection with nothing in flight has nothing queued unless the download
      is over. */
  lemma AnnouncedNotForgotten(t: Torrent, w0: World, es: seq<Event>, w: World)
    requires t.Valid() && Initial(t, w0) && LeadsTo(t, w0, es, w)
    ensures forall c :: 0 <= c < |w.conns| ==>
      QueueOk(w.shared.table, w.conns[c]) && NoneForgotten(w.shared.table, w.conns[c])
  {
    ReachedIsFine(t, w0, es, w);
    forall c | 0 <= c < |w.conns|
      ensures QueueOk(w.shared.table, w.conns[c]) && NoneForgotten(w.shared.table, w.conns[c])
    {
      assert ConnOk(t, w.shared, w.conns[c]);
    }
  }

  // ---------- single steps of a run ----------

  lemma UndoneDrops(a: Table, b: Table, before: set<int>, after: set<int>)
    requires StatusMoves(a, b, before, after)
    requires forall p, q :: p in before && q in before ==> p == q
    requires forall p :: p in before && p in a ==> a[p].status == Downloading
    ensures |Undone(b)| <= |Undone(a)| <= |Undone(b)| + 1
  {
    var finished := set p | p in before && p in a && p !in after;
    forall i
      ensures i in Undone(b) <==> i in Undone(a) - finished
    {
      if i in a && i in before && i !in after {
        assert b[i].status == Done;
      } else if i in a && i in after && i !in before {
        assert a[i].status == Idle && b[i].status == Downloading;
      }
    }
    assert Undone(b) == Undone(a) - finished;
    AtMostOne(finished);
  }

  lemma AtMostOne(s: set<int>)
    requires forall p, q :: p in s && q in s ==> p == q
    ensures |s| <= 1
  {
    if s != {} {
      var p := Choose(s);
      forall q
        ensures q in s <==> q == p
      {
      }
      assert s == {p};
    }
  }

  /** Finalisation happens on exactly the step on which the number of unfinished pieces drops from one to
      zero; that number never rises and drops by at most one in a step. */
  lemma FinalizesOnTheLastPiece(t: Torrent, w0: World, es: seq<Event>, w: World, e: Event)
    requires t.Valid() && Initial(t, w0) && LeadsTo(t, w0, es, w)
    requires e.conn < |w.conns| && Disciplined(t, At(w, e.conn), e)
    ensures Advance(w, e).Handled?
    ensures var w' := Advance(w, e).value;
      && |Undone(w'.shared.table)| <= |Undone(w.shared.table)| <= |Undone(w'.shared.table)| + 1
      && w'.shared.finalizations == w.shared.finalizations
           + (if |Undone(w.shared.table)| == 1 && |Undone(w'.shared.table)| == 0 then 1 else 0)
  {
    var l := At(w, e.conn);
    ReachedIsFine(t, w0, es, w);
    ConnectionIsOk(t, w, e.conn);
    DisciplinedIsFine(t, l, e);
    AdvanceIsLocal(w, e);
    if LocalStep(l, e).Handled? {
      var l' := LocalStep(l, e).value;
      UndoneDrops(w.shared.table, l'.shared.table, l.conn.inFlight, l'.conn.inFlight);
      UndoneEmpty(w.shared.table);
      UndoneEmpty(l'.shared.table);
    }
  }

  lemma DoneWhenCounted(t: Torrent, l: Local, p: int, k: int)
    requires t.Valid() && Awaiting(t, l, p, k)
    ensures var outcome := BlockStep(l, HonestBlock(t, p, k));
      && outcome.Handled? && p in outcome.value.shared.table
      && (outcome.value.shared.table[p].status == Done <==> Receive(l.conn.requester.value, k).blocksLeft == 0)
      && (outcome.value.shared.table[p].status != Done ==> p in outcome.value.conn.inFlight)
  {
    InFlightIs(t, l, p, k);
    if Receive(l.conn.requester.value, k).blocksLeft != 0 {
      MiddleStep(t, l, p, k);
    } else {
      PieceOk(t, l, p, k);
      StepOfReply(t, l, p, k);
      DoneAfterLast(l, HonestBlock(t, p, k));
    }
  }

  /** A reply completes its piece exactly when all other blocks of the piece have been saved before; until
      then it leaves the piece in flight. */
  lemma PieceDoneWithLastBlock(t: Torrent, l: Local, p: int, k: int)
    requires t.Valid() && Awaiting(t, l, p, k)
    ensures var outcome := PieceStep(l, HonestPayload(t, p, k));
      && outcome.Handled? && p in outcome.value.shared.table
      && (outcome.value.shared.table[p].status == Done <==> Absent(t, l.shared.files.blocksDir, p) == {k})
      && (outcome.value.shared.table[p].status != Done ==> p in outcome.value.conn.inFlight)
  {
    var r := l.conn.requester.value;
    StepOfReply(t, l, p, k);
    DoneWhenCounted(t, l, p, k);
    InFlightIs(t, l, p, k);
    ReceiveCounts(r, t.blocksPerPiece, k);
    OpenIsAbsent(t, l.shared.files.blocksDir, l.conn, p);
    OthersOpen(OpenBlocks(r), k);
  }

  lemma OthersOpen(open: set<int>, k: int)
    requires k in open
    ensures |open - {k}| == 0 <==> open == {k}
  {
    if |open - {k}| == 0 {
      assert open == {k} + (open - {k});
    }
  }

  lemma DoneAfterLast(l: Local, b: Block)
    requires BlockStep(l, b).Handled? && Receive(l.conn.requester.value, b.idx).blocksLeft == 0
    ensures b.pieceIdx in BlockStep(l, b).value.shared.table
    ensures BlockStep(l, b).value.shared.table[b.pieceIdx].status == Done
  {
    NextIdleLaws(Finish(l.shared.table, b.pieceIdx), l.conn.queue);
  }

  lemma OnlyPiecesFinalize(l: Local, e: Event)
    requires !e.PieceMsg? && LocalStep(l, e).Handled?
    ensures LocalStep(l, e).value.shared.finalizations == l.shared.finalizations
  {
  }

  /** When finalisation starts, the directory holds every block of the torrent under its own name with its
      own content, and nothing else. */
  lemma FinalizedDirectoryIsComplete(t: Torrent, w0: World, es: seq<Event>, w: World, e: Event)
    requires t.Valid() && Initial(t, w0) && LeadsTo(t, w0, es, w)
    requires e.conn < |w.conns| && Disciplined(t, At(w, e.conn), e)
    requires Advance(w, e).Handled? && Advance(w, e).value.shared.finalizations != w.shared.finalizations
    ensures e.PieceMsg? && ReceivedBlock(e.payload).Ok?
    ensures HoldsExactly(t, Save(w.shared.files, ReceivedBlock(e.payload).value).blocksDir)
  {
    ReachedIsFine(t, w0, es, w);
    ConnectionIsOk(t, w, e.conn);
    AdvanceIsLocal(w, e);
    FinalizedByPiece(t, At(w, e.conn), e);
  }

  lemma FinalizedByPiece(t: Torrent, l: Local, e: Event)
    requires t.Valid() && LocalOk(t, l) && Disciplined(t, l, e)
    requires LocalStep(l, e).Handled? && LocalStep(l, e).value.shared.finalizations != l.shared.finalizations
    ensures e.PieceMsg? && ReceivedBlock(e.payload).Ok?
    ensures HoldsExactly(t, Save(l.shared.files, ReceivedBlock(e.payload).value).blocksDir)
  {
    if !e.PieceMsg? {
      OnlyPiecesFinalize(l, e);
    }
    var p, k :| t.HasBlock(p, k) && e.payload == HonestPayload(t, p, k) && p in l.conn.inFlight && Missing(l.conn, k);
    ReplyIsUnderstood(t, p, k);
    FinalizedLocally(t, l, p, k);
  }

  lemma FinalizedLocally(t: Torrent, l: Local, p: int, k: int)
    requires t.Valid() && Awaiting(t, l, p, k)
    requires var outcome := BlockStep(l, HonestBlock(t, p, k));
      outcome.Handled? && outcome.value.shared.finalizations != l.shared.finalizations
    ensures HoldsExactly(t, Save(l.shared.files, HonestBlock(t, p, k)).blocksDir)
  {
    InFlightIs(t, l, p, k);
    var s := Completed(t, l.shared, p, k);
    assert Receive(l.conn.requester.value, k).blocksLeft == 0;
    assert |Undone(s.table)| == 0;
    CompletedFiles(t, l, p, k);
    CompletedTable(t, l.shared, p, k);
    UndoneEmpty(s.table);
    EverythingHeld(t, s);
  }
}
