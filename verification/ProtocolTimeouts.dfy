/** Time-outs: which requests have one running, and what becomes of a request that is never answered. */
module ProtocolTimeouts {
  import opened Wrappers
  import opened Bytes
  import opened Pieces
  import opened SliceUtil
  import opened Cardinality
  import opened Addressing
  import opened PeerMessages
  import opened PeerMessageBytes
  import opened BitfieldMessages
  import opened Protocol
  import opened ProtocolInvariant
  import opened ProtocolSteps
  import opened ProtocolRuns
  import opened ProtocolAccounts
  import opened ProtocolRequests

  // ---------- every missing block is waited for ----------

  /** Only missing blocks are waited for, and no more of the missing ones are not waited for than requests have
      been given up. */
  ghost predicate WaitsUnlessGivenUp(r: Requester, misfires: nat) {
    r.waiting.Keys <= OpenBlocks(r) && |OpenBlocks(r) - r.waiting.Keys| <= Excess(misfires)
  }

  ghost predicate TimeoutsOk(c: Conn) {
    && (c.requester.Some? ==> WaitsUnlessGivenUp(c.requester.value, c.misfires))
    && (c.weak <==> c.misfires > ALLOWED_MISFIRES)
  }

  lemma RequestAllWaits(r: Requester, blocks: seq<Block>, misfires: nat)
    requires WaitsUnlessGivenUp(r, misfires)
    ensures WaitsUnlessGivenUp(RequestAll(r, blocks), misfires)
  {
    var r', idxs := RequestAll(r, blocks), BlockIdxs(blocks);
    RequestAllOpens(r, blocks);
    OpenedWaits(r, idxs, r', misfires);
  }

  lemma OpenedWaits(r: Requester, idxs: set<int>, r': Requester, misfires: nat)
    requires WaitsUnlessGivenUp(r, misfires) && Opened(r, idxs, r')
    ensures WaitsUnlessGivenUp(r', misfires)
  {
    forall k | k in OpenBlocks(r') - r'.waiting.Keys
      ensures k in OpenBlocks(r) - r.waiting.Keys
    {
      assert k !in idxs;
    }
    SubsetSize(OpenBlocks(r') - r'.waiting.Keys, OpenBlocks(r) - r.waiting.Keys);
    forall k | k in r'.waiting
      ensures k in OpenBlocks(r')
    {
      assert k in idxs || k in r.waiting.Keys;
    }
  }

  lemma RequestNextWaits(l: Local, r: Requester)
    requires TimeoutsOk(l.conn.(requester := Some(r))) && RequestNext(l, r).Handled?
    ensures TimeoutsOk(RequestNext(l, r).value.conn)
  {
    match NextIdle(l.shared.table, l.conn.queue)
    case Reserved(_, i, _) => RequestAllWaits(r, l.shared.table[i].blocks, l.conn.misfires);
    case _ =>
  }

  lemma EnqueueWaits(l: Local, queue: seq<int>, news: seq<int>)
    requires TimeoutsOk(l.conn) && |queue| > 0 && Enqueue(l, queue, news).Handled?
    ensures TimeoutsOk(Enqueue(l, queue, news).value.conn)
  {
    if |l.conn.queue| == 0 {
      var r := NewRequester(l.shared.table[queue[0]].BlockCount());
      assert OpenBlocks(r) == {};
      RequestNextWaits(l.(conn := l.conn.(queue := queue, announced := l.conn.announced + news)), r);
    }
  }

  lemma ReceiveWaits(r: Requester, k: int, misfires: nat)
    requires WaitsUnlessGivenUp(r, misfires) && k in OpenBlocks(r)
    ensures WaitsUnlessGivenUp(Receive(r, k), misfires)
    ensures WaitsUnlessGivenUp(Receive(r, k).(blocksLeft := r.total), misfires)
  {
    var r' := Receive(r, k);
    assert OpenBlocks(r') == OpenBlocks(r) - {k} == OpenBlocks(r'.(blocksLeft := r.total));
    assert r'.waiting.Keys == r.waiting.Keys - {k};
    SubsetSize(OpenBlocks(r') - r'.waiting.Keys, OpenBlocks(r) - r.waiting.Keys);
  }

  lemma ReplyWaits(l: Local, payload: seq<byte>)
    requires TimeoutsOk(l.conn) && PieceStep(l, payload).Handled?
    ensures TimeoutsOk(PieceStep(l, payload).value.conn)
  {
    var b, r := ReceivedBlock(payload).value, l.conn.requester.value;
    ReceiveWaits(r, b.idx, l.conn.misfires);
    if Receive(r, b.idx).blocksLeft == 0 && |Undone(Between(l, b).shared.table)| != 0 {
      RequestNextWaits(Between(l, b), Receive(r, b.idx).(blocksLeft := r.total));
    }
  }

  lemma MisfireWaits(l: Local, k: int)
    requires TimeoutsOk(l.conn) && MisfireStep(l, k).Handled?
    ensures TimeoutsOk(MisfireStep(l, k).value.conn)
    ensures OpenBlocks(MisfireStep(l, k).value.conn.requester.value) == OpenBlocks(l.conn.requester.value)
  {
    var r, r' := l.conn.requester.value, MisfireStep(l, k).value.conn.requester.value;
    assert k in OpenBlocks(r);
    assert OpenBlocks(r') == OpenBlocks(r);
    if l.conn.misfires >= ALLOWED_MISFIRES {
      assert OpenBlocks(r') - r'.waiting.Keys == (OpenBlocks(r) - r.waiting.Keys) + {k};
    }
  }

  lemma StepWaits(l: Local, e: Event)
    requires TimeoutsOk(l.conn) && LocalStep(l, e).Handled?
    ensures TimeoutsOk(LocalStep(l, e).value.conn)
  {
    match e
    case HaveMsg(_, payload) =>
      if Uint32(payload) !in l.conn.queue {
        EnqueueWaits(l, l.conn.queue + [Uint32(payload)], [Uint32(payload)]);
      }
    case BitfieldMsg(_, payload) =>
      var indices := PieceIndices(payload, MaxIdx(l.shared.table.Keys)).value;
      if |indices| > 0 {
        MergedNotEmpty(l.conn.queue, indices);
        EnqueueWaits(l, UniqueMerge(l.conn.queue, indices), Newcomers(l.conn.queue, indices));
      }
    case PieceMsg(_, payload) => ReplyWaits(l, payload);
    case Misfire(_, k) => MisfireWaits(l, k);
  }

  ghost predicate AllTimeoutsOk(w: World) {
    forall c :: 0 <= c < |w.conns| ==> TimeoutsOk(w.conns[c])
  }

  lemma {:induction false} RunWaits(w: World, es: seq<Event>)
    requires AllTimeoutsOk(w) && Run(w, es).Handled?
    ensures AllTimeoutsOk(Run(w, es).value)
    decreases |es|
  {
    if |es| > 0 {
      var e := es[0];
      if e.conn < |w.conns| {
        AdvanceIsLocal(w, e);
        if LocalStep(At(w, e.conn), e).Handled? {
          StepWaits(At(w, e.conn), e);
        }
      }
      RunWaits(Advance(w, e).value, es[1..]);
    }
  }

  /** Whatever the messages and whenever they come: as long as a connection has not misfired more often than is
      allowed, a time-out runs for exactly the blocks that its requester lacks; after that, it lacks at most one
      block without a time-out for each misfire more.  The peer is marked weak exactly then. */
  lemma MissingBlocksAreWaitedFor(t: Torrent, w0: World, es: seq<Event>, w: World, c: nat)
    requires t.Valid() && Initial(t, w0) && Run(w0, es) == Handled(w) && c < |w.conns|
    ensures w.conns[c].requester.Some? ==>
      var r := w.conns[c].requester.value;
      && r.waiting.Keys <= OpenBlocks(r) && |OpenBlocks(r) - r.waiting.Keys| <= Excess(w.conns[c].misfires)
      && (w.conns[c].misfires <= ALLOWED_MISFIRES ==> r.waiting.Keys == OpenBlocks(r))
    ensures w.conns[c].weak <==> w.conns[c].misfires > ALLOWED_MISFIRES
  {
    RunWaits(w0, es);
    assert TimeoutsOk(w.conns[c]);
    if w.conns[c].requester.Some? && w.conns[c].misfires <= ALLOWED_MISFIRES {
      var r := w.conns[c].requester.value;
      assert OpenBlocks(r) - r.waiting.Keys == {};
    }
  }

  // ---------- a request that is never answered ----------

  function Min(a: int, b: int): int { if a < b then a else b }

  function Misfires(c: nat, k: int, n: nat): (es: seq<Event>)
    ensures |es| == n
  {
    seq(n, _ => Misfire(c, k))
  }

  /** What `n` misfires of block `k` have done to a connection. */
  ghost predicate Misfired(a: Conn, b: Conn, k: int, n: nat)
    requires k in Waiting(a)
  {
    && b == a.(misfires := b.misfires, weak := b.weak, requester := b.requester, sent := b.sent, owed := b.owed,
               repeats := b.repeats)
    && b.misfires == a.misfires + n && (b.weak <==> b.misfires > ALLOWED_MISFIRES)
    && b.requester.Some? && OpenBlocks(b.requester.value) == OpenBlocks(a.requester.value)
    && (forall j :: j in Waiting(b) <==> j in Waiting(a) && (j == k ==> b.misfires <= ALLOWED_MISFIRES))
    && (forall j :: j in Waiting(b) ==> b.requester.value.waiting[j] == a.requester.value.waiting[j])
    && a.sent <= b.sent && |b.sent| == |a.sent| + Min(n, ALLOWED_MISFIRES - a.misfires)
    && forall i :: |a.sent| <= i < |b.sent| ==> AsksFor(b.sent[i], a.requester.value.waiting[k])
  }

  lemma OneMisfire(l: Local, k: int)
    requires TimeoutsOk(l.conn) && k in Waiting(l.conn) && l.conn.misfires <= ALLOWED_MISFIRES
    ensures MisfireStep(l, k).Handled?
    ensures var l' := MisfireStep(l, k).value;
      l'.shared == l.shared && Misfired(l.conn, l'.conn, k, 1) && TimeoutsOk(l'.conn)
  {
    MessagesSent(l, Misfire(0, k));
    MisfireWaits(l, k);
  }

  lemma MisfiredAgain(a: Conn, b: Conn, c: Conn, k: int, n: nat)
    requires k in Waiting(a) && Misfired(a, b, k, n)
    requires a.misfires + n <= ALLOWED_MISFIRES && k in Waiting(b) && Misfired(b, c, k, 1)
    ensures Misfired(a, c, k, n + 1)
  {
    forall i | |a.sent| <= i < |c.sent|
      ensures AsksFor(c.sent[i], a.requester.value.waiting[k])
    {
      if i < |b.sent| {
        assert c.sent[i] == b.sent[i];
      }
    }
  }

  lemma MisfiresSnoc(c: nat, k: int, n: nat)
    ensures Misfires(c, k, n + 1) == Misfires(c, k, n) + [Misfire(c, k)]
  {
  }

  /** What `n` misfires of block `k` on connection `c` have done to the client. */
  ghost predicate AfterMisfires(w: World, w': World, c: nat, k: int, n: nat)
    requires c < |w.conns| && k in Waiting(w.conns[c])
  {
    && |w'.conns| == |w.conns| && w' == World(w.shared, w.conns[c := w'.conns[c]])
    && Misfired(w.conns[c], w'.conns[c], k, n) && TimeoutsOk(w'.conns[c])
  }

  lemma OneMisfireMore(w: World, w1: World, c: nat, k: int, n: nat)
    requires c < |w.conns| && k in Waiting(w.conns[c]) && w.conns[c].misfires + n <= ALLOWED_MISFIRES
    requires AfterMisfires(w, w1, c, k, n)
    ensures Run(w1, [Misfire(c, k)]).Handled?
    ensures AfterMisfires(w, Run(w1, [Misfire(c, k)]).value, c, k, n + 1)
  {
    var e := Misfire(c, k);
    OneMisfire(At(w1, c), k);
    AdvanceIsLocal(w1, e);
    MisfiredAgain(w.conns[c], w1.conns[c], LocalStep(At(w1, c), e).value.conn, k, n);
    RunOne(w1, e, []);
    assert [e] + [] == [e];
  }

  lemma {:induction false} MisfiresOneByOne(w: World, c: nat, k: int, n: nat)
    requires c < |w.conns| && TimeoutsOk(w.conns[c]) && k in Waiting(w.conns[c])
    requires w.conns[c].misfires + n <= ALLOWED_MISFIRES + 1 && w.conns[c].misfires <= ALLOWED_MISFIRES
    ensures Run(w, Misfires(c, k, n)).Handled? && AfterMisfires(w, Run(w, Misfires(c, k, n)).value, c, k, n)
  {
    if n > 0 {
      MisfiresOneByOne(w, c, k, n - 1);
      OneMisfireMore(w, Run(w, Misfires(c, k, n - 1)).value, c, k, n - 1);
      MisfiresSnoc(c, k, n - 1);
      RunAppend(w, Misfires(c, k, n - 1), [Misfire(c, k)]);
    }
  }

  /** A request that is never answered.  In any reached state, take a block for which a time-out runs on a connection
      that has misfired no more often than is allowed.  Misfires of that block alone, up to the first that is one
      too many, are all handled and change nothing else: each but that last sends the REQUEST once more and
      leaves its time-out running; that last marks the peer weak and ends it. */
  lemma UnansweredRequest(t: Torrent, w0: World, es: seq<Event>, w: World, c: nat, k: int, n: nat)
    requires t.Valid() && Initial(t, w0) && Run(w0, es) == Handled(w) && c < |w.conns| && k in Waiting(w.conns[c])
    requires w.conns[c].misfires <= ALLOWED_MISFIRES && n <= ALLOWED_MISFIRES + 1 - w.conns[c].misfires
    ensures Run(w, Misfires(c, k, n)).Handled?
    ensures var w', m := Run(w, Misfires(c, k, n)).value, w.conns[c].misfires;
      && |w'.conns| == |w.conns| && w' == World(w.shared, w.conns[c := w'.conns[c]])
      && w'.conns[c].misfires == m + n && (w'.conns[c].weak <==> m + n == 4)
      && (k in Waiting(w'.conns[c]) <==> m + n < 4)
      && SentAgain(t, w.conns[c], w'.conns[c], w.conns[c].requester.value.waiting[k].pieceIdx, k, Min(n, 3 - m))
  {
    RunWaits(w0, es);
    assert TimeoutsOk(w.conns[c]);
    MisfiresOneByOne(w, c, k, n);
    InitialRequests(t, w0);
    RunRequests(t, w0, [], es);
    SameBlockAgain(t, w.conns[c], Run(w, Misfires(c, k, n)).value.conns[c], k, n);
  }

  /** What has been sent are `n` REQUESTs for block `k` of piece `p`. */
  ghost predicate SentAgain(t: Torrent, a: Conn, b: Conn, p: int, k: int, n: nat) {
    && t.HasBlock(p, k) && a.sent <= b.sent && |b.sent| == |a.sent| + n
    && forall i :: |a.sent| <= i < |b.sent| ==> AsksForBlock(t, b.sent[i], p, k)
  }

  lemma SameBlockAgain(t: Torrent, a: Conn, b: Conn, k: int, n: nat)
    requires t.Valid() && WaitsForBlocks(t, a) && k in Waiting(a) && a.misfires <= ALLOWED_MISFIRES
    requires Misfired(a, b, k, n)
    ensures SentAgain(t, a, b, a.requester.value.waiting[k].pieceIdx, k, Min(n, 3 - a.misfires))
  {
    var p := a.requester.value.waiting[k].pieceIdx;
    forall i | |a.sent| <= i < |b.sent|
      ensures AsksForBlock(t, b.sent[i], p, k)
    {
      UniformIsAsked(t, b.sent[i], p, k);
    }
  }
}
