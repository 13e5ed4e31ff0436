/** Which deliveries the protocol tolerates: exactly the disciplined ones. */
module ProtocolExactness {
  import opened Wrappers
  import opened Bytes
  import opened Pieces
  import opened SliceUtil
  import opened BitfieldMessages
  import opened Addressing
  import opened Serving
  import opened Protocol
  import opened ProtocolInvariant
  import opened ProtocolSteps
  import opened ProtocolReplies

  /** Some block requested on the connection has not arrived. */
  predicate Busy(c: Conn) {
    c.requester.Some? && OpenBlocks(c.requester.value) != {}
  }

  /** An announcement that starts a download on this connection may not arrive while one is running. */
  predicate MayAnnounce(c: Conn) {
    |c.queue| > 0 || !Busy(c)
  }

  lemma BusyIffInFlight(t: Torrent, c: Conn)
    requires RequesterOk(t, c)
    ensures Busy(c) <==> c.inFlight != {}
  {
  }

  /** The payload is too short to carry a block, or carries one of the torrent's blocks. */
  ghost predicate HonestPiece(t: Torrent, payload: seq<byte>)
    requires t.Valid()
  {
    |payload| <= 8 || exists p, k :: t.HasBlock(p, k) && payload == HonestPayload(t, p, k)
  }

  /** A PIECE message carries some block of the torrent; nothing is asked of the other events. */
  ghost predicate HonestContent(t: Torrent, e: Event)
    requires t.Valid()
  {
    e.PieceMsg? ==> HonestPiece(t, e.payload)
  }

  /** The conditions on a delivery: announcements are of known pieces and well timed, and a PIECE message
      answers a request of this connection for the first time.  Messages that the handlers answer with an
      error are free to arrive. */
  ghost predicate Disciplined(t: Torrent, l: Local, e: Event)
    requires t.Valid()
  {
    match e
    case HaveMsg(_, payload) => |payload| >= 4 && Uint32(payload) in l.shared.table && MayAnnounce(l.conn)
    case BitfieldMsg(_, payload) =>
      var indices := PieceIndices(payload, MaxIdx(l.shared.table.Keys));
      indices.Err? || (indices.Ok? && (|indices.value| == 0 || MayAnnounce(l.conn)))
    case PieceMsg(_, payload) =>
      |payload| <= 8 ||
      exists p, k :: t.HasBlock(p, k) && payload == HonestPayload(t, p, k) && p in l.conn.inFlight && Missing(l.conn, k)
    case Misfire(_, _) => true
  }

  /** The delivery is answered with an error, or handled and right for its connection. */
  ghost predicate Survives(t: Torrent, outcome: Outcome<Local>)
    requires t.Valid()
  {
    outcome.Rejected? || (outcome.Handled? && LocalOk(t, outcome.value))
  }

  lemma DisciplinedIsFine(t: Torrent, l: Local, e: Event)
    requires t.Valid() && LocalOk(t, l) && Disciplined(t, l, e)
    ensures Survives(t, LocalStep(l, e))
    ensures LocalStep(l, e).Handled? ==>
      Moves(t, l.shared, LocalStep(l, e).value.shared, l.conn.inFlight, LocalStep(l, e).value.conn.inFlight)
  {
    BusyIffInFlight(t, l.conn);
    match e
    case HaveMsg(_, payload) => HaveOk(t, l, payload);
    case BitfieldMsg(_, payload) =>
      if PieceIndices(payload, MaxIdx(l.shared.table.Keys)).Ok? {
        BitfieldOk(t, l, payload);
      }
    case PieceMsg(_, payload) =>
      if |payload| > 8 {
        var p, k :| t.HasBlock(p, k) && payload == HonestPayload(t, p, k) && p in l.conn.inFlight && Missing(l.conn, k);
        PieceOk(t, l, p, k);
      }
    case Misfire(_, k) =>
      if k in Waiting(l.conn) {
        MisfireOk(t, l, k);
      }
  }

  // ---------- the requester of a running download is replaced ----------

  lemma EnqueueWhileBusy(t: Torrent, l: Local, queue: seq<int>, news: seq<int>)
    requires t.Valid() && LocalOk(t, l) && |queue| > 0 && !MayAnnounce(l.conn)
    ensures !Survives(t, Enqueue(l, queue, news))
  {
    var q := Choose(l.conn.inFlight);
    if queue[0] in l.shared.table {
      var l' := l.(conn := l.conn.(queue := queue, announced := l.conn.announced + news));
      var r := NewRequester(l.shared.table[queue[0]].BlockCount());
      assert 0 !in r.data;
      RequestWhileBusy(t, l', r, q);
    }
  }

  lemma UnknownPieceBreaks(t: Torrent, l: Local, i: int)
    requires t.Valid() && LocalOk(t, l) && i !in l.shared.table
    ensures i !in l.conn.queue
    ensures !Survives(t, Enqueue(l, l.conn.queue + [i], [i]))
  {
    var queue := l.conn.queue + [i];
    if |l.conn.queue| > 0 {
      assert i in Enqueue(l, queue, [i]).value.conn.announced;
    } else {
      assert queue[0] == i;
    }
  }

  lemma UndisciplinedHave(t: Torrent, l: Local, payload: seq<byte>)
    requires t.Valid() && LocalOk(t, l)
    requires !(|payload| >= 4 && Uint32(payload) in l.shared.table && MayAnnounce(l.conn))
    ensures !Survives(t, HaveStep(l, payload))
  {
    if |payload| >= 4 {
      var i := Uint32(payload);
      if i !in l.shared.table {
        UnknownPieceBreaks(t, l, i);
      } else {
        EnqueueWhileBusy(t, l, l.conn.queue + [i], [i]);
      }
    }
  }

  lemma UndisciplinedBitfield(t: Torrent, l: Local, indices: seq<int>)
    requires t.Valid() && LocalOk(t, l) && |indices| > 0 && !MayAnnounce(l.conn)
    ensures |UniqueMerge(l.conn.queue, indices)| > 0
    ensures !Survives(t, Enqueue(l, UniqueMerge(l.conn.queue, indices), Newcomers(l.conn.queue, indices)))
  {
    MergedNotEmpty(l.conn.queue, indices);
    EnqueueWhileBusy(t, l, UniqueMerge(l.conn.queue, indices), Newcomers(l.conn.queue, indices));
  }

  lemma UndisciplinedPiece(t: Torrent, l: Local, p: int, k: int)
    requires t.Valid() && LocalOk(t, l) && t.HasBlock(p, k)
    requires !(p in l.conn.inFlight && Missing(l.conn, k))
    ensures !Survives(t, PieceStep(l, HonestPayload(t, p, k)))
  {
    ReplyIsUnderstood(t, p, k);
    if Missing(l.conn, k) {
      assert k in OpenBlocks(l.conn.requester.value);
      ForeignBlock(t, l, p, k, Choose(l.conn.inFlight));
    }
  }

  lemma UndisciplinedAnnouncement(t: Torrent, l: Local, payload: seq<byte>)
    requires t.Valid() && LocalOk(t, l)
    requires var indices := PieceIndices(payload, MaxIdx(l.shared.table.Keys));
      !(indices.Err? || (indices.Ok? && (|indices.value| == 0 || MayAnnounce(l.conn))))
    ensures !Survives(t, BitfieldStep(l, payload))
  {
    var indices := PieceIndices(payload, MaxIdx(l.shared.table.Keys));
    if indices.Ok? {
      UndisciplinedBitfield(t, l, indices.value);
    }
  }

  lemma UndisciplinedBreaks(t: Torrent, l: Local, e: Event)
    requires t.Valid() && LocalOk(t, l) && HonestContent(t, e) && !Disciplined(t, l, e)
    ensures !Survives(t, LocalStep(l, e))
  {
    match e
    case HaveMsg(_, payload) => UndisciplinedHave(t, l, payload);
    case BitfieldMsg(_, payload) => UndisciplinedAnnouncement(t, l, payload);
    case PieceMsg(_, payload) =>
      var p, k :| t.HasBlock(p, k) && payload == HonestPayload(t, p, k);
      UndisciplinedPiece(t, l, p, k);
    case Misfire(_, _) =>
  }

  lemma LocalToAdvance(t: Torrent, w: World, e: Event, outcome: Outcome<Local>)
    requires Inv(t, w) && e.conn < |w.conns| && outcome == LocalStep(At(w, e.conn), e)
    requires Survives(t, outcome)
    requires outcome.Handled? ==>
      Moves(t, w.shared, outcome.value.shared, w.conns[e.conn].inFlight, outcome.value.conn.inFlight)
    ensures Advance(w, e).Handled? && Inv(t, Advance(w, e).value)
  {
    AdvanceIsLocal(w, e);
    if outcome.Handled? {
      LocalToGlobal(t, w, e.conn, outcome.value);
    }
  }

  lemma DisciplinedAdvance(t: Torrent, w: World, e: Event)
    requires Inv(t, w) && e.conn < |w.conns| && Disciplined(t, At(w, e.conn), e)
    ensures Advance(w, e).Handled? && Inv(t, Advance(w, e).value)
  {
    ConnectionIsOk(t, w, e.conn);
    DisciplinedIsFine(t, At(w, e.conn), e);
    LocalToAdvance(t, w, e, LocalStep(At(w, e.conn), e));
  }

  lemma UndisciplinedAdvance(t: Torrent, w: World, e: Event)
    requires Inv(t, w) && e.conn < |w.conns| && HonestContent(t, e) && !Disciplined(t, At(w, e.conn), e)
    ensures !(Advance(w, e).Handled? && Inv(t, Advance(w, e).value))
  {
    var c, l := e.conn, At(w, e.conn);
    ConnectionIsOk(t, w, c);
    UndisciplinedBreaks(t, l, e);
    if Step(w, e).Handled? {
      var w' := Step(w, e).value;
      assert At(w', c) == LocalStep(l, e).value;
    }
  }

  /** From any state satisfying the invariant, a delivery of honest content leads on, and keeps the invariant,
      exactly when it is disciplined.  What becomes of the client otherwise is the subject of
      `ProtocolReplies` and `ProtocolFailures`. */
  lemma StepKeepsInvIff(t: Torrent, w: World, e: Event)
    requires Inv(t, w) && e.conn < |w.conns| && HonestContent(t, e)
    ensures (Advance(w, e).Handled? && Inv(t, Advance(w, e).value)) <==> Disciplined(t, At(w, e.conn), e)
  {
    if Disciplined(t, At(w, e.conn), e) {
      DisciplinedAdvance(t, w, e);
    } else {
      UndisciplinedAdvance(t, w, e);
    }
  }
}
