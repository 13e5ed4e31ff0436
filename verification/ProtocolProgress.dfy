/** The download can always be completed: no reachable state is a dead end. */
module ProtocolProgress {
  import opened Wrappers
  import opened Bytes
  import opened Pieces
  import opened Addressing
  import opened Serving
  import opened PeerMessages
  import opened FramingLimits
  import opened Protocol
  import opened ProtocolInvariant
  import opened ProtocolSteps
  import opened ProtocolReplies
  import opened ProtocolExactness
  import opened ProtocolRuns

  // ---------- runs whose messages come through the reader ----------

  /** The event is no message, or its message comes out of the reader as it was sent. */
  ghost predicate Carried(e: Event) {
    match e
    case HaveMsg(_, payload) => Readable(PeerMsg(Have, payload))
    case BitfieldMsg(_, payload) => Readable(PeerMsg(Kind.Bitfield, payload))
    case PieceMsg(_, payload) => Readable(PeerMsg(Kind.Piece, payload))
    case Misfire(_, _) => true
  }

  /** The events may be delivered one after the other over the wire, and this is where they lead. */
  ghost predicate WireLeadsTo(t: Torrent, w: World, es: seq<Event>, w': World)
    requires t.Valid()
  {
    LeadsTo(t, w, es, w') && forall e :: e in es ==> Carried(e)
  }

  /** The download has been finalised once and the finished file is the seeder's. */
  predicate Downloaded(t: Torrent, w: World) {
    w.shared.finalizations == 1 && w.shared.files.finalFile == Some(t.content)
  }

  lemma LeadsNowhere(t: Torrent, w: World)
    requires t.Valid()
    ensures WireLeadsTo(t, w, [], w)
  {
  }

  /** A first event and the rest. */
  ghost predicate StartsWith(t: Torrent, w: World, e: Event, w': World)
    requires t.Valid()
  {
    e.conn < |w.conns| && Disciplined(t, At(w, e.conn), e) && Advance(w, e) == Handled(w')
  }

  lemma LeadsByOne(t: Torrent, a: World, e: Event, b: World)
    requires t.Valid() && StartsWith(t, a, e, b)
    ensures LeadsTo(t, a, [e], b)
  {
    assert [e][1..] == [];
  }

  lemma WireLeadsOn(t: Torrent, a: World, es: seq<Event>, b: World, fs: seq<Event>, c: World)
    requires t.Valid() && WireLeadsTo(t, a, es, b) && WireLeadsTo(t, b, fs, c)
    ensures WireLeadsTo(t, a, es + fs, c)
  {
    RunAppend(a, es, fs);
    DisciplinedAppend(t, a, es, fs, es + fs);
  }

  // ---------- progress ----------

  /** The same announcements have been made. */
  ghost predicate SameAnnouncements(a: World, b: World) {
    |a.conns| == |b.conns| && forall c :: 0 <= c < |a.conns| ==> a.conns[c].announced == b.conns[c].announced
  }

  function Left(c: Conn): int {
    if c.requester.Some? then c.requester.value.blocksLeft else 0
  }

  lemma RequestNextKeepsAnnounced(l: Local, r: Requester)
    requires RequestNext(l, r).Handled?
    ensures RequestNext(l, r).value.conn.announced == l.conn.announced
  {
  }

  lemma BlockKeepsAnnounced(l: Local, b: Block)
    requires BlockStep(l, b).Handled?
    ensures BlockStep(l, b).value.conn.announced == l.conn.announced
  {
    var r := Receive(l.conn.requester.value, b.idx);
    if r.blocksLeft == 0 {
      var l1, table := Accept(l, b), Finish(l.shared.table, b.pieceIdx);
      if |Undone(table)| != 0 {
        RequestNextKeepsAnnounced(Local(l1.shared.(table := table),
                                        l1.conn.(inFlight := l1.conn.inFlight - {b.pieceIdx})),
                                  r.(blocksLeft := r.total));
      }
    }
  }

  /** An awaited reply brings its connection nearer to the end of its piece, or finishes the piece. */
  lemma ReplyIsProgress(t: Torrent, l: Local, p: int, k: int)
    requires t.Valid() && Awaiting(t, l, p, k)
    ensures PieceStep(l, HonestPayload(t, p, k)).Handled?
    ensures var l' := PieceStep(l, HonestPayload(t, p, k)).value;
      && l'.conn.announced == l.conn.announced
      && (|Undone(l'.shared.table)| < |Undone(l.shared.table)|
          || (|Undone(l'.shared.table)| == |Undone(l.shared.table)| && p in l'.conn.inFlight
              && 0 <= Left(l'.conn) < Left(l.conn)))
  {
    StepOfReply(t, l, p, k);
    InFlightIs(t, l, p, k);
    if Receive(l.conn.requester.value, k).blocksLeft != 0 {
      MiddleStep(t, l, p, k);
      ReceiveCounts(l.conn.requester.value, t.blocksPerPiece, k);
    } else {
      LastReplyIsProgress(t, l, p, k);
    }
  }

  lemma LastReplyIsProgress(t: Torrent, l: Local, p: int, k: int)
    requires t.Valid() && Awaiting(t, l, p, k) && Receive(l.conn.requester.value, k).blocksLeft == 0
    ensures BlockStep(l, HonestBlock(t, p, k)).Handled?
    ensures var l' := BlockStep(l, HonestBlock(t, p, k)).value;
      l'.conn.announced == l.conn.announced && |Undone(l'.shared.table)| < |Undone(l.shared.table)|
  {
    StepOfReply(t, l, p, k);
    InFlightIs(t, l, p, k);
    PieceOk(t, l, p, k);
    BlockKeepsAnnounced(l, HonestBlock(t, p, k));
    DoneAfterLast(l, HonestBlock(t, p, k));
    var l' := BlockStep(l, HonestBlock(t, p, k)).value;
    UndoneShrinks(l.shared.table, l'.shared.table, l.conn.inFlight, l'.conn.inFlight, p);
  }

  lemma UndoneShrinks(a: Table, b: Table, before: set<int>, after: set<int>, p: int)
    requires StatusMoves(a, b, before, after) && before == {p}
    requires p in a && a[p].status == Downloading && b[p].status == Done
    ensures |Undone(b)| < |Undone(a)|
  {
    forall i
      ensures i in Undone(b) <==> i in Undone(a) - {p}
    {
      if i in a && i != p && i in after {
        assert a[i].status == Idle && b[i].status == Downloading;
      }
    }
    assert Undone(b) == Undone(a) - {p};
  }

  /** Some reply is always outstanding on a connection with a piece in flight. */
  lemma SomethingAwaited(t: Torrent, l: Local) returns (p: int, k: int)
    requires t.Valid() && LocalOk(t, l) && l.conn.inFlight != {}
    ensures Awaiting(t, l, p, k)
  {
    p := Choose(l.conn.inFlight);
    k := Choose(OpenBlocks(l.conn.requester.value));
  }

  /** The announcements are kept, and fewer pieces are undone, or as many with fewer blocks left on `c`. */
  ghost predicate Nearer(w: World, w': World, c: nat)
    requires c < |w.conns|
  {
    SameAnnouncements(w, w') &&
    (|Undone(w'.shared.table)| < |Undone(w.shared.table)|
     || (|Undone(w'.shared.table)| == |Undone(w.shared.table)| && w'.conns[c].inFlight != {}
         && 0 <= Left(w'.conns[c]) < Left(w.conns[c])))
  }

  lemma DeliverOne(t: Torrent, w: World, c: nat) returns (e: Event, w': World)
    requires Inv(t, w) && FitsReader(t) && c < |w.conns| && w.conns[c].inFlight != {}
    ensures WireLeadsTo(t, w, [e], w') && Inv(t, w') && Nearer(w, w', c)
  {
    ConnectionIsOk(t, w, c);
    var p, k := SomethingAwaited(t, At(w, c));
    e := PieceMsg(c, HonestPayload(t, p, k));
    ReplyIsProgress(t, At(w, c), p, k);
    AwaitedIsDisciplined(t, At(w, c), p, k, e);
    ReplyIsReadableIff(t, p, k);
    w' := DisciplinedStep(t, w, e);
    AdvanceIsLocal(w, e);
    ReplyBringsNearer(w, c, PieceStep(At(w, c), e.payload).value, p);
  }

  lemma ReplyBringsNearer(w: World, c: nat, l: Local, p: int)
    requires c < |w.conns| && l.conn.announced == w.conns[c].announced
    requires |Undone(l.shared.table)| < |Undone(w.shared.table)|
          || (|Undone(l.shared.table)| == |Undone(w.shared.table)| && p in l.conn.inFlight
              && 0 <= Left(l.conn) < Left(w.conns[c]))
    ensures Nearer(w, Replace(w, c, l), c)
  {
  }

  lemma AwaitedIsDisciplined(t: Torrent, l: Local, p: int, k: int, e: Event)
    requires t.Valid() && Awaiting(t, l, p, k) && e.PieceMsg? && e.payload == HonestPayload(t, p, k)
    ensures Disciplined(t, l, e)
  {
    assert t.HasBlock(p, k) && e.payload == HonestPayload(t, p, k) && p in l.conn.inFlight && Missing(l.conn, k);
  }

  lemma DisciplinedStep(t: Torrent, w: World, e: Event) returns (w': World)
    requires Inv(t, w) && e.conn < |w.conns| && Disciplined(t, At(w, e.conn), e) && Carried(e)
    ensures Advance(w, e) == Handled(w') && WireLeadsTo(t, w, [e], w') && Inv(t, w')
  {
    DisciplinedAdvance(t, w, e);
    w' := Advance(w, e).value;
    LeadsByOne(t, w, e, w');
  }

  /** The piece in flight on a connection can be completed. */
  lemma {:induction false} CompleteOnePiece(t: Torrent, w: World, c: nat) returns (es: seq<Event>, w': World)
    requires Inv(t, w) && FitsReader(t) && c < |w.conns| && w.conns[c].inFlight != {}
    ensures WireLeadsTo(t, w, es, w') && Inv(t, w') && SameAnnouncements(w, w')
    ensures |Undone(w'.shared.table)| < |Undone(w.shared.table)|
    decreases Left(w.conns[c])
  {
    var e, w1 := DeliverOne(t, w, c);
    if |Undone(w1.shared.table)| < |Undone(w.shared.table)| {
      return [e], w1;
    }
    var fs;
    fs, w' := CompleteOnePiece(t, w1, c);
    es := [e] + fs;
    WireLeadsOn(t, w, [e], w1, fs, w');
  }

  /** Replies to the requests outstanding bring every state to rest. */
  lemma {:induction false} ComeToRest(t: Torrent, w: World) returns (es: seq<Event>, w': World)
    requires Inv(t, w) && FitsReader(t)
    ensures WireLeadsTo(t, w, es, w') && Inv(t, w') && SameAnnouncements(w, w') && Quiescent(w')
    decreases |Undone(w.shared.table)|
  {
    if Quiescent(w) {
      LeadsNowhere(t, w);
      return [], w;
    }
    var c :| 0 <= c < |w.conns| && w.conns[c].inFlight != {};
    var fs, w1 := CompleteOnePiece(t, w, c);
    var gs;
    gs, w' := ComeToRest(t, w1);
    es := fs + gs;
    WireLeadsOn(t, w, fs, w1, gs, w');
  }

  lemma StaysCovered(t: Torrent, w: World, w': World)
    requires Covered(t, w) && SameAnnouncements(w, w')
    ensures Covered(t, w')
  {
    forall i | 0 <= i < t.pieces
      ensures Announced(w', i)
    {
      assert Announced(w, i);
      var c :| 0 <= c < |w.conns| && i in w.conns[c].announced;
      assert i in w'.conns[c].announced;
    }
  }

  // ---------- replies that cannot be read ----------

  lemma UnreadableChangesNothing(t: Torrent, l: Local, e: Event)
    requires t.Valid() && !FitsReader(t) && Disciplined(t, l, e) && Carried(e) && LocalStep(l, e).Handled?
    ensures LocalStep(l, e).value.shared.finalizations == l.shared.finalizations
  {
    if e.PieceMsg? {
      var p, k :| t.HasBlock(p, k) && e.payload == HonestPayload(t, p, k) && p in l.conn.inFlight && Missing(l.conn, k);
      ReplyIsReadableIff(t, p, k);
    } else {
      OnlyPiecesFinalize(l, e);
    }
  }

  /** When the replies do not fit the reader nothing is ever finalised. */
  lemma {:induction false} NothingArrives(t: Torrent, w: World, es: seq<Event>, w': World)
    requires t.Valid() && !FitsReader(t) && WireLeadsTo(t, w, es, w')
    ensures w'.shared.finalizations == w.shared.finalizations
    decreases |es|
  {
    if |es| > 0 {
      AdvanceIsLocal(w, es[0]);
      assert es[0] in es && forall e :: e in es[1..] ==> e in es;
      if LocalStep(At(w, es[0].conn), es[0]).Handled? {
        UnreadableChangesNothing(t, At(w, es[0].conn), es[0]);
      }
      NothingArrives(t, Advance(w, es[0]).value, es[1..], w');
    }
  }

  // ---------- the download can be completed ----------

  /** No dead end.  From every reachable state in which all pieces have been announced, replies to the
      requests the client has made and then makes lead, over the wire, to the finished download: the
      seeder's file.  That is so exactly if the replies fit the reader or the download is over already. */
  lemma DownloadCanFinish(t: Torrent, w0: World, es: seq<Event>, w: World)
    requires t.Valid() && Initial(t, w0) && LeadsTo(t, w0, es, w) && Covered(t, w)
    ensures (exists fs, w' :: WireLeadsTo(t, w, fs, w') && Downloaded(t, w'))
       <==> FitsReader(t) || w.shared.finalizations == 1
  {
    ReachedIsFine(t, w0, es, w);
    if w.shared.finalizations == 1 {
      LeadsNowhere(t, w);
      assert Downloaded(t, w);
    } else if FitsReader(t) {
      var fs, w' := ComeToRest(t, w);
      StaysCovered(t, w, w');
      QuiescentIsFinished(t, w');
    } else {
      forall fs, w' | WireLeadsTo(t, w, fs, w')
        ensures !Downloaded(t, w')
      {
        NothingArrives(t, w, fs, w');
      }
    }
  }

  /** One connection at rest on which the pieces below `n` have been announced. */
  ghost predicate Rested(t: Torrent, w: World, n: nat) {
    Inv(t, w) && Quiescent(w) && |w.conns| == 1 && forall i :: 0 <= i < n ==> i in w.conns[0].announced
  }

  /** States in which everything is announced exist for every torrent. */
  lemma {:induction false} AnnounceUpTo(t: Torrent, w: World, n: nat) returns (es: seq<Event>, w': World)
    requires Rested(t, w, 0) && FitsReader(t) && n <= t.pieces
    ensures WireLeadsTo(t, w, es, w') && Rested(t, w', n)
  {
    if n == 0 {
      es, w' := [], w;
      LeadsNowhere(t, w);
    } else {
      var fs, w1 := AnnounceUpTo(t, w, n - 1);
      var gs;
      gs, w' := AnnounceOne(t, w1, n - 1);
      es := fs + gs;
      WireLeadsOn(t, w, fs, w1, gs, w');
    }
  }

  lemma AnnounceOne(t: Torrent, w: World, i: nat) returns (es: seq<Event>, w': World)
    requires Rested(t, w, i) && FitsReader(t) && i < t.pieces
    ensures WireLeadsTo(t, w, es, w') && Rested(t, w', i + 1)
  {
    var e, w1 := DeliverHave(t, w, i);
    var gs;
    gs, w' := ComeToRest(t, w1);
    es := [e] + gs;
    WireLeadsOn(t, w, [e], w1, gs, w');
  }

  lemma DeliverHave(t: Torrent, w: World, i: nat) returns (e: Event, w': World)
    requires Rested(t, w, i) && i < t.pieces
    ensures WireLeadsTo(t, w, [e], w') && Inv(t, w') && |w'.conns| == 1
    ensures forall j :: 0 <= j <= i ==> j in w'.conns[0].announced
  {
    e := HaveMsg(0, PutUint32(i));
    HaveIsUnderstood(i);
    ConnectionIsOk(t, w, 0);
    HaveIsDisciplined(t, At(w, 0), i);
    w' := DisciplinedStep(t, w, e);
    HaveAnnouncesUpTo(w, i, w');
  }

  lemma HaveAnnouncesUpTo(w: World, i: nat, w': World)
    requires |w.conns| == 1 && i < TWO_TO_32 && Advance(w, HaveMsg(0, PutUint32(i))) == Handled(w')
    requires EndsWith(w.conns[0].announced, w.conns[0].queue)
    requires forall j :: 0 <= j < i ==> j in w.conns[0].announced
    ensures |w'.conns| == 1 && forall j :: 0 <= j <= i ==> j in w'.conns[0].announced
  {
    HaveIsUnderstood(i);
    QueuedIsAnnounced(w.conns[0]);
    AdvanceIsLocal(w, HaveMsg(0, PutUint32(i)));
    HaveAnnounces(At(w, 0), PutUint32(i));
  }

  lemma HaveIsDisciplined(t: Torrent, l: Local, i: nat)
    requires t.Valid() && LocalOk(t, l) && i < t.pieces && l.conn.inFlight == {}
    ensures Disciplined(t, l, HaveMsg(0, PutUint32(i)))
  {
    HaveIsUnderstood(i);
    BusyIffInFlight(t, l.conn);
  }

  lemma HaveAnnounces(l: Local, payload: seq<byte>)
    requires |payload| >= 4 && !HaveStep(l, payload).Crashed?
    requires forall i :: i in l.conn.queue ==> i in l.conn.announced
    ensures HaveStep(l, payload).Handled?
    ensures Uint32(payload) in HaveStep(l, payload).value.conn.announced
    ensures forall i :: i in l.conn.announced ==> i in HaveStep(l, payload).value.conn.announced
  {
    var i := Uint32(payload);
    if i !in l.conn.queue && |l.conn.queue| == 0 && i in l.shared.table {
      var queue := l.conn.queue + [i];
      RequestNextKeepsAnnounced(l.(conn := l.conn.(queue := queue, announced := l.conn.announced + [i])),
                                NewRequester(l.shared.table[i].BlockCount()));
    }
  }

  lemma DownloadFromOnePeer(t: Torrent, peerId: string) returns (es: seq<Event>, w: World)
    requires t.Valid() && FitsReader(t)
    ensures WireLeadsTo(t, Start(t, [peerId]), es, w) && Downloaded(t, w)
  {
    StartIsInitial(t, [peerId]);
    InitialIsFine(t, Start(t, [peerId]));
    es, w := AnnounceUpTo(t, Start(t, [peerId]), t.pieces);
    forall i | 0 <= i < t.pieces
      ensures Announced(w, i)
    {
      assert i in w.conns[0].announced;
    }
    QuiescentIsFinished(t, w);
  }

  /** A uniform torrent can be downloaded from a single honest peer over the wire, the disciplined run ending
      with the seeder's file, exactly if a block and its header are within the reader's limit. */
  lemma EveryTorrentCanBeDownloaded(t: Torrent, peerId: string)
    requires t.Valid()
    ensures (exists es, w :: WireLeadsTo(t, Start(t, [peerId]), es, w) && Downloaded(t, w)) <==> FitsReader(t)
  {
    if FitsReader(t) {
      var es, w := DownloadFromOnePeer(t, peerId);
    } else {
      forall es, w | WireLeadsTo(t, Start(t, [peerId]), es, w)
        ensures !Downloaded(t, w)
      {
        NothingArrives(t, Start(t, [peerId]), es, w);
      }
    }
  }
}
