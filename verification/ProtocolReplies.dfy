/** What becomes of a reply, whatever the state of the connection it arrives on. */
module ProtocolReplies {
  import opened Wrappers
  import opened Pieces
  import opened Addressing
  import opened BlockNames
  import opened FileInfos
  import opened Assembly
  import opened Serving
  import opened Protocol
  import opened ProtocolInvariant
  import opened ProtocolSteps

  lemma StepOfReply(t: Torrent, l: Local, p: int, k: int)
    requires t.Valid() && t.HasBlock(p, k)
    ensures PieceStep(l, HonestPayload(t, p, k)) == BlockStep(l, HonestBlock(t, p, k))
  {
    ReplyIsUnderstood(t, p, k);
  }

  /** Requesting a piece while one is in flight leaves two in flight; finding none to request leaves the one
      in flight with a requester that cannot account for it. */
  lemma RequestWhileBusy(t: Torrent, l: Local, r: Requester, q: int)
    requires t.Valid() && q in l.conn.inFlight && q in l.shared.table && l.shared.table[q].status == Downloading
    requires !Counting(r, t.blocksPerPiece)
    ensures !(RequestNext(l, r).Handled? && LocalOk(t, RequestNext(l, r).value))
  {
    NextIdleLaws(l.shared.table, l.conn.queue);
    match NextIdle(l.shared.table, l.conn.queue)
    case Reserved(_, i, rest) =>
      var l' := ReserveFor(l, r, i, rest);
      assert q in l'.conn.inFlight && i in l'.conn.inFlight && q != i;
    case Exhausted =>
      assert RequestNext(l, r).value.conn.requester == Some(r);
    case Unknown(_) =>
  }

  /** The blocks of a piece that are not in the directory. */
  function Absent(t: Torrent, dir: Directory, p: int): set<int> {
    set k | 0 <= k < t.blocksPerPiece && BlockName(p, k) !in dir
  }

  /** The open channels of a connection are the blocks that its piece in flight still lacks. */
  lemma OpenIsAbsent(t: Torrent, dir: Directory, c: Conn, p: int)
    requires t.Valid() && 0 <= p < t.pieces && p in c.inFlight && RequesterOk(t, c) && ReceivedSaved(t, dir, c)
    ensures Absent(t, dir, p) == OpenBlocks(c.requester.value)
  {
    var r := c.requester.value;
    forall k
      ensures k in Absent(t, dir, p) <==> k in OpenBlocks(r)
    {
      if 0 <= k < t.blocksPerPiece {
        assert t.HasBlock(p, k);
        assert k in r.data;
      }
    }
  }

  /** A reply has been counted for piece `q` although it carried block `k` of another piece `p`: `q` still
      lacks its own block `k`, which the connection no longer waits for.  Unless the reply was counted as the
      last one of `q`, the counter is one short; if it was, `p` has been marked done in place of `q`. */
  ghost predicate CountedForAnother(t: Torrent, l: Local, l': Local, p: int, k: int, q: int)
    requires t.Valid() && l.conn.requester.Some? && l'.conn.requester.Some?
  {
    && p in l'.shared.table && q in l'.shared.table && l'.shared.table[q].status == Downloading
    && q in l'.conn.inFlight
    && k in Absent(t, l'.shared.files.blocksDir, q)
    && if l.conn.requester.value.blocksLeft > 1
       then l'.conn.requester.value.blocksLeft == |Absent(t, l'.shared.files.blocksDir, q)| - 1
            && k !in OpenBlocks(l'.conn.requester.value)
       else l'.shared.table[p].status == Done
  }

  lemma ForeignSaved(t: Torrent, l: Local, p: int, k: int, q: int)
    requires t.Valid() && LocalOk(t, l) && t.HasBlock(p, k) && Missing(l.conn, k)
    requires p !in l.conn.inFlight && q in l.conn.inFlight
    ensures 0 <= q < t.pieces && l.shared.table[q].status == Downloading
    ensures var dir := Save(l.shared.files, HonestBlock(t, p, k)).blocksDir;
      Absent(t, dir, q) == OpenBlocks(l.conn.requester.value) && k in Absent(t, dir, q)
  {
    var dir := l.shared.files.blocksDir;
    SaveOne(t, dir, p, k, Save(l.shared.files, HonestBlock(t, p, k)).blocksDir);
    OpenIsAbsent(t, dir, l.conn, q);
    forall j | 0 <= j < t.blocksPerPiece
      ensures BlockName(q, j) in Save(l.shared.files, HonestBlock(t, p, k)).blocksDir <==> BlockName(q, j) in dir
    {
      assert t.HasBlock(q, j);
    }
    assert k in OpenBlocks(l.conn.requester.value);
  }

  lemma ForeignMiddleBlock(t: Torrent, l: Local, p: int, k: int, q: int)
    requires t.Valid() && LocalOk(t, l) && t.HasBlock(p, k) && Missing(l.conn, k)
    requires p !in l.conn.inFlight && q in l.conn.inFlight && Receive(l.conn.requester.value, k).blocksLeft != 0
    ensures var outcome := BlockStep(l, HonestBlock(t, p, k));
      outcome.Handled? && outcome.value.conn.requester.Some? && CountedForAnother(t, l, outcome.value, p, k, q)
      && !LocalOk(t, outcome.value)
  {
    var l', r := BlockStep(l, HonestBlock(t, p, k)).value, l.conn.requester.value;
    ForeignSaved(t, l, p, k, q);
    ReceiveCounts(r, t.blocksPerPiece, k);
    assert t.HasBlock(q, k) && l'.conn.requester.value.data[k] == Closed;
    assert !Saved(t, l'.shared.files.blocksDir, q, k);
    assert OpenBlocks(Receive(r, k)) == OpenBlocks(r) - {k};
  }

  /** The state after the block of another piece that was counted as the last. */
  function MarkedInstead(t: Torrent, l: Local, p: int, k: int): Local
    requires t.Valid() && t.HasBlock(p, k) && p in l.shared.table
  {
    var l1 := Accept(l, HonestBlock(t, p, k));
    Local(l1.shared.(table := Finish(l1.shared.table, p)), l1.conn.(inFlight := l1.conn.inFlight - {p}))
  }

  lemma ForeignLastStep(t: Torrent, l: Local, p: int, k: int, q: int)
    requires t.Valid() && t.HasBlock(p, k) && p in l.shared.table && Missing(l.conn, k) && p != q
    requires Receive(l.conn.requester.value, k).blocksLeft == 0
    requires q in l.shared.table && l.shared.table[q].status == Downloading
    ensures BlockStep(l, HonestBlock(t, p, k)) == RequestNext(MarkedInstead(t, l, p, k), ResetRequester(l, k))
  {
    assert q in Undone(Finish(l.shared.table, p));
    assert |Undone(Finish(l.shared.table, p))| != 0;
  }

  lemma RequestNextSucceeds(l: Local, r: Requester)
    requires forall x :: x in l.conn.queue ==> x in l.shared.table
    ensures RequestNext(l, r).Handled?
    ensures var l' := RequestNext(l, r).value;
      && l'.conn.requester.Some? && l.conn.inFlight <= l'.conn.inFlight && l'.shared.files == l.shared.files
      && l'.shared.table.Keys == l.shared.table.Keys && l'.shared.saved == l.shared.saved
      && (forall i :: i in l.shared.table ==> l'.shared.table[i].blocks == l.shared.table[i].blocks)
      && forall i :: i in l.shared.table && l.shared.table[i].status != Idle ==>
           l'.shared.table[i].status == l.shared.table[i].status
  {
    NextIdleLaws(l.shared.table, l.conn.queue);
  }

  lemma ForeignLastBlock(t: Torrent, l: Local, p: int, k: int, q: int)
    requires t.Valid() && LocalOk(t, l) && t.HasBlock(p, k) && Missing(l.conn, k)
    requires p !in l.conn.inFlight && q in l.conn.inFlight && Receive(l.conn.requester.value, k).blocksLeft == 0
    ensures var outcome := BlockStep(l, HonestBlock(t, p, k));
      outcome.Handled? && outcome.value.conn.requester.Some? && CountedForAnother(t, l, outcome.value, p, k, q)
      && !LocalOk(t, outcome.value)
  {
    ForeignSaved(t, l, p, k, q);
    ForeignLastStep(t, l, p, k, q);
    var l1, r := MarkedInstead(t, l, p, k), ResetRequester(l, k);
    ReceiveCounts(l.conn.requester.value, t.blocksPerPiece, k);
    assert OpenBlocks(r) == OpenBlocks(Receive(l.conn.requester.value, k)) == {};
    QueuedIsAnnounced(l.conn);
    RequestNextSucceeds(l1, r);
    RequestWhileBusy(t, l1, r, q);
  }

  lemma ForeignBlock(t: Torrent, l: Local, p: int, k: int, q: int)
    requires t.Valid() && LocalOk(t, l) && t.HasBlock(p, k) && Missing(l.conn, k)
    requires p !in l.conn.inFlight && q in l.conn.inFlight
    ensures var outcome := BlockStep(l, HonestBlock(t, p, k));
      outcome.Handled? && outcome.value.conn.requester.Some? && CountedForAnother(t, l, outcome.value, p, k, q)
      && !LocalOk(t, outcome.value)
  {
    if Receive(l.conn.requester.value, k).blocksLeft != 0 {
      ForeignMiddleBlock(t, l, p, k, q);
    } else {
      ForeignLastBlock(t, l, p, k, q);
    }
  }

  /** The outcome of a reply with block `k` of piece `p`, guard by guard.  With no requester, or for a closed
      channel, the client crashes; for a channel that was never opened it blocks.  An open channel takes the
      block whichever piece it belongs to: if that piece is in flight all is well, otherwise the reply is
      counted for the piece that is. */
  lemma ReplyOutcome(t: Torrent, w: World, c: nat, p: int, k: int)
    requires Inv(t, w) && c < |w.conns| && t.HasBlock(p, k)
    ensures var conn, outcome := w.conns[c], Step(w, PieceMsg(c, HonestPayload(t, p, k)));
      && (outcome == Crashed <==>
            conn.requester.None? || (k in conn.requester.value.data && conn.requester.value.data[k] == Closed))
      && (outcome == Stuck <==> conn.requester.Some? && k !in conn.requester.value.data)
      && (outcome.Handled? <==> Missing(conn, k))
      && (Missing(conn, k) && p in conn.inFlight ==> Inv(t, outcome.value))
      && (Missing(conn, k) && p !in conn.inFlight ==>
            !Inv(t, outcome.value) && conn.inFlight != {}
            && forall q :: q in conn.inFlight ==>
                 outcome.value.conns[c].requester.Some?
                 && CountedForAnother(t, At(w, c), At(outcome.value, c), p, k, q))
  {
    StepOfReply(t, At(w, c), p, k);
    if Missing(w.conns[c], k) {
      if p in w.conns[c].inFlight {
        AwaitedReply(t, w, c, p, k);
      } else {
        ForeignReply(t, w, c, p, k);
      }
    }
  }

  lemma AwaitedReply(t: Torrent, w: World, c: nat, p: int, k: int)
    requires Inv(t, w) && c < |w.conns| && t.HasBlock(p, k) && Missing(w.conns[c], k) && p in w.conns[c].inFlight
    ensures var outcome := BlockStep(At(w, c), HonestBlock(t, p, k));
      outcome.Handled? && Inv(t, Replace(w, c, outcome.value))
  {
    ConnectionIsOk(t, w, c);
    StepOfReply(t, At(w, c), p, k);
    PieceOk(t, At(w, c), p, k);
    LocalToGlobal(t, w, c, BlockStep(At(w, c), HonestBlock(t, p, k)).value);
  }

  lemma ForeignReply(t: Torrent, w: World, c: nat, p: int, k: int)
    requires Inv(t, w) && c < |w.conns| && t.HasBlock(p, k) && Missing(w.conns[c], k) && p !in w.conns[c].inFlight
    ensures w.conns[c].inFlight != {}
    ensures var outcome := BlockStep(At(w, c), HonestBlock(t, p, k));
      outcome.Handled? && outcome.value.conn.requester.Some? && !Inv(t, Replace(w, c, outcome.value))
      && forall q :: q in w.conns[c].inFlight ==> CountedForAnother(t, At(w, c), outcome.value, p, k, q)
  {
    var l := At(w, c);
    ConnectionIsOk(t, w, c);
    assert k in OpenBlocks(l.conn.requester.value);
    forall q | q in w.conns[c].inFlight
      ensures var outcome := BlockStep(l, HonestBlock(t, p, k));
        outcome.Handled? && outcome.value.conn.requester.Some? && CountedForAnother(t, l, outcome.value, p, k, q)
    {
      ForeignBlock(t, l, p, k, q);
    }
    ForeignBlock(t, l, p, k, Choose(l.conn.inFlight));
    var l' := BlockStep(l, HonestBlock(t, p, k)).value;
    assert Replace(w, c, l').conns[c] == l'.conn;
  }
}
