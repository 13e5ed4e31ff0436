/** What becomes of the client when an announcement comes at the wrong time or names an unknown piece. */
module ProtocolFailures {
  import opened Wrappers
  import opened Bytes
  import opened SliceUtil
  import opened Cardinality
  import opened Pieces
  import opened Addressing
  import opened PeerMessages
  import opened BitfieldMessages
  import opened BlockNames
  import opened Serving
  import opened Protocol
  import opened ProtocolInvariant
  import opened ProtocolSteps
  import opened ProtocolReplies
  import opened ProtocolExactness
  import opened ProtocolRuns
  import opened ProtocolReservations
  import opened ProtocolAccounts
  import opened ProtocolRequests
  import opened ProtocolAnswers

  // ---------- a connection that only counts down ----------

  /** Nothing is queued, and the requester has a channel for each of `n` blocks. */
  ghost predicate Draining(c: Conn, n: nat) {
    |c.queue| == 0 && c.requester.Some? && Tallies(c.requester.value, n) && KeysAre(c.requester.value, n)
  }

  ghost predicate KnowsAll(t: Torrent, table: Table) {
    forall i :: 0 <= i < t.pieces ==> i in table
  }

  /** Every event is a reply on connection `c` with some block of the torrent. */
  ghost predicate HonestReplies(t: Torrent, c: nat, es: seq<Event>)
    requires t.Valid()
  {
    forall e :: e in es ==> e.PieceMsg? && e.conn == c && |e.payload| > 8 && HonestPiece(t, e.payload)
  }

  lemma DrainLast(t: Torrent, l: Local, b: Block)
    requires t.Valid() && Draining(l.conn, t.blocksPerPiece) && b.pieceIdx in l.shared.table
    requires Missing(l.conn, b.idx) && Receive(l.conn.requester.value, b.idx).blocksLeft == 0
    ensures BlockStep(l, b).Handled?
    ensures var l' := BlockStep(l, b).value;
      && l'.shared.table.Keys == l.shared.table.Keys
      && l'.conn.requester == Some(Receive(l.conn.requester.value, b.idx).(blocksLeft := t.blocksPerPiece))
      && |l'.conn.queue| == 0
  {
    LastStep(l, b);
  }

  /** A reply on such a connection closes one channel more or crashes the client. */
  lemma DrainStep(t: Torrent, l: Local, p: int, k: int)
    requires t.Valid() && Draining(l.conn, t.blocksPerPiece) && t.HasBlock(p, k) && KnowsAll(t, l.shared.table)
    ensures var outcome := BlockStep(l, HonestBlock(t, p, k));
      if Missing(l.conn, k) then
        outcome.Handled? && Draining(outcome.value.conn, t.blocksPerPiece)
        && OpenCount(outcome.value.conn) == OpenCount(l.conn) - 1 && KnowsAll(t, outcome.value.shared.table)
      else outcome == Crashed
  {
    if Missing(l.conn, k) {
      var r, n := l.conn.requester.value, t.blocksPerPiece;
      assert k in OpenBlocks(r);
      ReceiveTallies(r, n, k);
      var r' := Receive(r, k);
      if r'.blocksLeft == 0 {
        DrainLast(t, l, HonestBlock(t, p, k));
        assert OpenBlocks(r'.(blocksLeft := n)) == {};
      }
    }
  }

  /** More replies than open channels crash the client. */
  lemma {:induction false} TooManyReplies(t: Torrent, w: World, c: nat, es: seq<Event>)
    requires t.Valid() && c < |w.conns| && KnowsAll(t, w.shared.table) && Draining(w.conns[c], t.blocksPerPiece)
    requires HonestReplies(t, c, es) && |es| > OpenCount(w.conns[c])
    ensures Run(w, es) == Crashed
    decreases |es|
  {
    var e := es[0];
    assert e in es && forall f :: f in es[1..] ==> f in es;
    var p, k :| t.HasBlock(p, k) && e.payload == HonestPayload(t, p, k);
    StepOfReply(t, At(w, c), p, k);
    DrainStep(t, At(w, c), p, k);
    AdvanceIsLocal(w, e);
    if Missing(w.conns[c], k) {
      TooManyReplies(t, Advance(w, e).value, c, es[1..]);
    }
  }

  // ---------- the requester of a running download is replaced ----------

  /** An early announcement: it finds the queue empty and a download running. */
  ghost predicate Early(l: Local, e: Event) {
    (e.HaveMsg? || e.BitfieldMsg?) && !WellTimed(l, e)
  }

  lemma ReplacedRequester(t: Torrent, l: Local, queue: seq<int>, news: seq<int>)
    requires t.Valid() && TableOk(t, l.shared.table) && |l.conn.queue| == 0 && |queue| > 0
    requires Enqueue(l, queue, news).Handled?
    ensures var l' := Enqueue(l, queue, news).value;
      && l'.conn.requester.Some? && l'.shared.saved == l.shared.saved && l'.shared.files == l.shared.files
      && KnowsAll(t, l'.shared.table)
      && if l'.shared.reservations == l.shared.reservations
         then l'.conn.requester.value == NewRequester(t.blocksPerPiece)
         else exists i :: i in l.shared.table && l.shared.table[i].status == Idle
                && Replaced(t, l, l', i)
  {
    var l1 := l.(conn := l.conn.(queue := queue, announced := l.conn.announced + news));
    NextIdleLaws(l.shared.table, queue);
    assert t.UniformBlocks(queue[0], l.shared.table[queue[0]].blocks);
    var r := NewRequester(t.blocksPerPiece);
    match NextIdle(l.shared.table, queue)
    case Exhausted =>
    case Reserved(_, i, rest) =>
      ReplacedByReserving(t, l1, r, i, rest);
      assert Replaced(t, l, ReserveFor(l1, r, i, rest), i);
  }

  /** The new requester has asked for all blocks of piece `i`. */
  ghost predicate Replaced(t: Torrent, l: Local, l': Local, i: int)
    requires t.Valid()
  {
    && i in l.shared.table && l'.conn.requester.Some?
    && Tallies(l'.conn.requester.value, t.blocksPerPiece) && KeysAre(l'.conn.requester.value, t.blocksPerPiece)
    && OpenCount(l'.conn) == t.blocksPerPiece
    && l'.conn.owed == l.conn.owed + multiset(Ids(l.shared.table[i].blocks))
  }

  lemma ReplacedByReserving(t: Torrent, l: Local, r: Requester, i: int, rest: seq<int>)
    requires t.Valid() && TableOk(t, l.shared.table) && i in l.shared.table && r == NewRequester(t.blocksPerPiece)
    ensures Replaced(t, l, ReserveFor(l, r, i, rest), i)
    ensures KnowsAll(t, ReserveFor(l, r, i, rest).shared.table)
  {
    var blocks := l.shared.table[i].blocks;
    IdxsOfUniform(t, i, blocks);
    RequestAllOpens(r, blocks);
    OpenedTallies(r, t.blocksPerPiece, RequestAll(r, blocks));
  }

  lemma EarlyReplaces(t: Torrent, l: Local, e: Event)
    requires t.Valid() && TableOk(t, l.shared.table) && Early(l, e) && LocalStep(l, e).Handled?
    ensures var l' := LocalStep(l, e).value;
      && l'.conn.requester.Some? && l'.shared.saved == l.shared.saved && l'.shared.files == l.shared.files
      && KnowsAll(t, l'.shared.table)
      && if l'.shared.reservations == l.shared.reservations
         then l'.conn.requester.value == NewRequester(t.blocksPerPiece)
         else exists i :: i in l.shared.table && l.shared.table[i].status == Idle && Replaced(t, l, l', i)
  {
    match e
    case HaveMsg(_, payload) =>
      ReplacedRequester(t, l, l.conn.queue + [Uint32(payload)], [Uint32(payload)]);
    case BitfieldMsg(_, payload) =>
      var indices := PieceIndices(payload, MaxIdx(l.shared.table.Keys)).value;
      MergedNotEmpty(l.conn.queue, indices);
      ReplacedRequester(t, l, UniqueMerge(l.conn.queue, indices), Newcomers(l.conn.queue, indices));
  }

  lemma EarlyDrains(t: Torrent, w: World, e: Event, w1: World)
    requires t.Valid() && TableOk(t, w.shared.table)
    requires e.conn < |w.conns| && Early(At(w, e.conn), e) && Step(w, e) == Handled(w1)
    requires w1.shared.reservations != w.shared.reservations && |w1.conns[e.conn].queue| == 0
    ensures KnowsAll(t, w1.shared.table) && Draining(w1.conns[e.conn], t.blocksPerPiece)
    ensures OpenCount(w1.conns[e.conn]) == t.blocksPerPiece
  {
    EarlyReplaces(t, At(w, e.conn), e);
    assert At(w1, e.conn) == LocalStep(At(w, e.conn), e).value;
  }

  /** An early announcement that reserves a piece and leaves nothing queued: the new requester has a channel
      for each block index, and more replies than that, in whatever order, crash the client. */
  lemma EarlyAnnouncementCrashes(t: Torrent, w: World, e: Event, w1: World, es: seq<Event>)
    requires t.Valid() && TableOk(t, w.shared.table)
    requires e.conn < |w.conns| && Early(At(w, e.conn), e) && Step(w, e) == Handled(w1)
    requires w1.shared.reservations != w.shared.reservations && |w1.conns[e.conn].queue| == 0
    requires HonestReplies(t, e.conn, es) && |es| > t.blocksPerPiece
    ensures Run(w1, es) == Crashed
  {
    EarlyDrains(t, w, e, w1);
    TooManyReplies(t, w1, e.conn, es);
  }

  /** An early announcement of pieces none of which is idle: the new requester has asked for nothing, and the
      next reply blocks the client. */
  lemma EarlyAnnouncementBlocks(t: Torrent, w: World, e: Event, w1: World, p: int, k: int)
    requires t.Valid() && TableOk(t, w.shared.table)
    requires e.conn < |w.conns| && Early(At(w, e.conn), e) && Step(w, e) == Handled(w1)
    requires w1.shared.reservations == w.shared.reservations && t.HasBlock(p, k)
    ensures Step(w1, PieceMsg(e.conn, HonestPayload(t, p, k))) == Stuck
  {
    EarlyReplaces(t, At(w, e.conn), e);
    assert At(w1, e.conn) == LocalStep(At(w, e.conn), e).value;
    StepOfReply(t, At(w1, e.conn), p, k);
  }

  // ---------- the answers still to come are too many ----------

  /** The blocks owed on a connection that no reply has brought. */
  ghost predicate Unanswered(w: World, c: nat, id: BlockId)
    requires c < |w.conns|
  {
    id in w.conns[c].owed && id !in w.shared.saved
  }

  lemma IdleNotSaved(t: Torrent, w: World, i: int, k: int)
    requires Inv(t, w) && Accounts(t, w) && t.HasBlock(i, k)
    requires i in w.shared.table && w.shared.table[i].status == Idle
    ensures BlockId(i, k) !in w.shared.saved
  {
    assert !AllDone(w.shared.table);
    assert BlockName(i, k) !in w.shared.files.blocksDir;
  }

  lemma IdsAreDistinct(t: Torrent, p: int, blocks: seq<Block>)
    requires t.Valid() && 0 <= p < t.pieces && t.UniformBlocks(p, blocks)
    ensures NoDuplicates(Ids(blocks)) && |Ids(blocks)| == t.blocksPerPiece
  {
    forall i, j | 0 <= i < j < |blocks|
      ensures Ids(blocks)[i] != Ids(blocks)[j]
    {
      assert blocks[i].idx == i && blocks[j].idx == j;
    }
  }

  /** One block more than a piece has. */
  lemma OneTooMany(t: Torrent, i: int, blocks: seq<Block>, extra: BlockId, ids: seq<BlockId>)
    requires t.Valid() && 0 <= i < t.pieces && t.UniformBlocks(i, blocks) && extra.pieceIdx != i
    requires extra in ids && forall id :: id in Ids(blocks) ==> id in ids
    ensures |ids| > t.blocksPerPiece
  {
    IdsAreDistinct(t, i, blocks);
    IdsOfUniform(t, i, blocks);
    DistinctCount(Ids(blocks));
    DistinctCount(ids);
    SubsetSize(Elements(Ids(blocks)) + {extra}, Elements(ids));
  }

  lemma {:induction false} NoMoreRepliesThanEvents(es: seq<Event>)
    ensures |RepliesIn(es)| <= |es|
  {
    if |es| > 0 {
      NoMoreRepliesThanEvents(es[1..]);
    }
  }

  /** When a download is running on the connection and another piece is reserved on it, more blocks are
      unanswered than a piece has. */
  lemma TooManyUnanswered(t: Torrent, w: World, e: Event, w1: World, ids: seq<BlockId>)
    requires Inv(t, w) && AllOwedOk(w) && Accounts(t, w)
    requires e.conn < |w.conns| && Early(At(w, e.conn), e) && Step(w, e) == Handled(w1)
    requires w1.shared.reservations != w.shared.reservations
    requires forall id :: Unanswered(w1, e.conn, id) ==> id in ids
    ensures |ids| > t.blocksPerPiece
  {
    EarlyReplaces(t, At(w, e.conn), e);
    assert At(w1, e.conn) == LocalStep(At(w, e.conn), e).value;
    var i :| i in w.shared.table && w.shared.table[i].status == Idle && Replaced(t, At(w, e.conn), At(w1, e.conn), i);
    ReservedWhileBusy(t, w, e.conn, w1, i, ids);
  }

  lemma ReservedWhileBusy(t: Torrent, w: World, c: nat, w1: World, i: int, ids: seq<BlockId>)
    requires Inv(t, w) && AllOwedOk(w) && Accounts(t, w) && c < |w.conns| == |w1.conns| && Busy(w.conns[c])
    requires i in w.shared.table && w.shared.table[i].status == Idle && w1.shared.saved == w.shared.saved
    requires w1.conns[c].owed == w.conns[c].owed + multiset(Ids(w.shared.table[i].blocks))
    requires forall id :: Unanswered(w1, c, id) ==> id in ids
    ensures |ids| > t.blocksPerPiece
  {
    var extra := RunningUnanswered(t, w, c);
    var blocks := w.shared.table[i].blocks;
    assert Unanswered(w1, c, extra);
    forall id | id in Ids(blocks)
      ensures id in ids
    {
      NewlyUnanswered(t, w, i, blocks, id);
      assert Unanswered(w1, c, id);
    }
    OneTooMany(t, i, blocks, extra, ids);
  }

  lemma RunningUnanswered(t: Torrent, w: World, c: nat) returns (id: BlockId)
    requires Inv(t, w) && AllOwedOk(w) && Accounts(t, w) && c < |w.conns| && Busy(w.conns[c])
    ensures Unanswered(w, c, id) && id.pieceIdx in w.shared.table && w.shared.table[id.pieceIdx].status == Downloading
  {
    ConnectionIsOk(t, w, c);
    BusyIffInFlight(t, w.conns[c]);
    id := BlockId(Choose(w.conns[c].inFlight), Choose(OpenBlocks(w.conns[c].requester.value)));
    OpenIsFirstAnswer(t, w, c, id.pieceIdx, id.idx);
  }

  lemma NewlyUnanswered(t: Torrent, w: World, i: int, blocks: seq<Block>, id: BlockId)
    requires Inv(t, w) && Accounts(t, w) && i in w.shared.table && w.shared.table[i].status == Idle
    requires blocks == w.shared.table[i].blocks && id in Ids(blocks)
    ensures id !in w.shared.saved
  {
    IdsOfUniform(t, i, blocks);
    IdleNotSaved(t, w, i, id.idx);
  }

  lemma StepKeepsConns(w: World, e: Event, w1: World)
    requires e.conn < |w.conns| && Step(w, e) == Handled(w1)
    ensures |w1.conns| == |w.conns| && Advance(w, e) == Handled(w1)
  {
  }

  lemma UnansweredAreAskedFor(t: Torrent, w0: World, before: seq<Event>, w: World, e: Event, w1: World)
    requires t.Valid() && Initial(t, w0) && LeadsTo(t, w0, before, w) && w.shared.saved == RepliesIn(before)
    requires e.conn < |w.conns| == |w1.conns| && Early(At(w, e.conn), e) && Step(w, e) == Handled(w1)
    ensures w1.shared.saved == w.shared.saved
    ensures forall id :: Unanswered(w1, e.conn, id) ==>
      id in RequestsIn(w1.conns[e.conn].sent) && id !in RepliesIn(before)
  {
    ReachedIsFine(t, w0, before, w);
    EarlyReplaces(t, At(w, e.conn), e);
    StepKeepsConns(w, e, w1);
    RunOne(w, e, []);
    RunAppend(w0, before, [e] + []);
    forall id | Unanswered(w1, e.conn, id)
      ensures id in RequestsIn(w1.conns[e.conn].sent)
    {
      AskedIffOwed(t, w0, before + ([e] + []), w1, e.conn, id);
    }
  }

  /** So an early announcement that reserves a piece and leaves nothing queued is fatal whenever the peer
      answers all that it has been asked: however the answers are ordered, they crash the client. */
  lemma EarlyAnnouncementIsFatal(t: Torrent, w0: World, before: seq<Event>, w: World, e: Event, w1: World,
                                 es: seq<Event>)
    requires t.Valid() && Initial(t, w0) && LeadsTo(t, w0, before, w)
    requires e.conn < |w.conns| && Early(At(w, e.conn), e) && Step(w, e) == Handled(w1)
    requires w1.shared.reservations != w.shared.reservations && |w1.conns[e.conn].queue| == 0
    requires HonestReplies(t, e.conn, es)
    requires forall id :: id in RequestsIn(w1.conns[e.conn].sent) && id !in RepliesIn(before) ==> id in RepliesIn(es)
    ensures Run(w1, es) == Crashed
  {
    ReachedIsFine(t, w0, before, w);
    ReachedIsAccounted(t, w0, before, w);
    StepKeepsConns(w, e, w1);
    UnansweredAreAskedFor(t, w0, before, w, e, w1);
    TooManyUnanswered(t, w, e, w1, RepliesIn(es));
    NoMoreRepliesThanEvents(es);
    EarlyAnnouncementCrashes(t, w, e, w1, es);
  }

  // ---------- two early HAVEs ----------

  lemma FirstHave(t: Torrent, l: Local, i: nat)
    requires t.Valid() && i < t.pieces && TableOk(t, l.shared.table) && l.shared.table[i].status == Idle
    requires l.conn.queue == []
    ensures var outcome := HaveStep(l, PutUint32(i));
      && outcome.Handled? && outcome.value.shared.reservations == l.shared.reservations + [i]
      && outcome.value.shared.table == Reserve(l.shared.table, i, l.conn.peerId)
      && outcome.value.conn.queue == [] && Busy(outcome.value.conn)
  {
    HaveIsUnderstood(i);
    var blocks := l.shared.table[i].blocks;
    assert t.UniformBlocks(i, blocks);
    assert [] + [i as int] == [i as int];
    assert NextIdle(l.shared.table, [i]) == Reserved([], i, []);
    var l1, r := l.(conn := l.conn.(queue := [i], announced := l.conn.announced + [i])), NewRequester(t.blocksPerPiece);
    ReplacedByReserving(t, l1, r, i, []);
  }

  lemma FirstHaveAdvances(t: Torrent, w: World, i: nat)
    requires t.Valid() && i < t.pieces && |w.conns| == 1 && w.conns[0].queue == []
    requires TableOk(t, w.shared.table) && w.shared.table[i].status == Idle
    ensures var e := HaveMsg(0, PutUint32(i));
      && Step(w, e).Handled? && Advance(w, e) == Step(w, e)
      && var w' := Step(w, e).value;
         && |w'.conns| == 1 && w'.conns[0].queue == [] && Busy(w'.conns[0])
         && w'.shared.reservations == w.shared.reservations + [i]
         && w'.shared.table == Reserve(w.shared.table, i, w.conns[0].peerId)
  {
    FirstHave(t, At(w, 0), i);
  }

  lemma FirstHaveKeepsInv(t: Torrent, peerId: string)
    requires t.Valid()
    ensures var w0, e := Start(t, [peerId]), HaveMsg(0, PutUint32(0));
      && TableOk(t, w0.shared.table) && (forall i :: i in w0.shared.table ==> w0.shared.table[i].status == Idle)
      && Advance(w0, e).Handled? && Inv(t, Advance(w0, e).value)
  {
    StartIsInitial(t, [peerId]);
    InitialIsFine(t, Start(t, [peerId]));
    HaveIsUnderstood(0);
    DisciplinedAdvance(t, Start(t, [peerId]), HaveMsg(0, PutUint32(0)));
  }

  /** Two HAVE messages, the second while the first piece is in flight, on a new connection: more replies
      than a piece has blocks, all of them honest, crash the client in any order. */
  lemma EarlyHaveCrashes(t: Torrent, peerId: string, es: seq<Event>)
    requires t.Valid() && t.pieces >= 2 && HonestReplies(t, 0, es) && |es| > t.blocksPerPiece
    ensures Run(Start(t, [peerId]), [HaveMsg(0, PutUint32(0))] + ([HaveMsg(0, PutUint32(1))] + es)) == Crashed
  {
    var w0, have0, have1 := Start(t, [peerId]), HaveMsg(0, PutUint32(0)), HaveMsg(0, PutUint32(1));
    FirstHaveKeepsInv(t, peerId);
    FirstHaveAdvances(t, w0, 0);
    var w1 := Advance(w0, have0).value;
    FirstHaveAdvances(t, w1, 1);
    EarlyAnnouncementCrashes(t, w1, have1, Step(w1, have1).value, es);
    RunOne(w1, have1, es);
    RunOne(w0, have0, [have1] + es);
  }

  // ---------- some REQUEST stays unanswered for good ----------

  /** The first requests that have neither an open channel nor a reply to show for them. */
  function Spent(c: Conn): int { FirstRequests(c) - OpenCount(c) }

  lemma EnqueueSpends(t: Torrent, l: Local, queue: seq<int>, news: seq<int>)
    requires t.Valid() && TableOk(t, l.shared.table) && |l.conn.queue| == 0 && |queue| > 0
    requires Enqueue(l, queue, news).Handled?
    ensures var l' := Enqueue(l, queue, news).value;
      TableOk(t, l'.shared.table) && ConnTallies(l'.conn, t.blocksPerPiece) && Spent(l'.conn) == FirstRequests(l.conn)
  {
    var l1 := l.(conn := l.conn.(queue := queue, announced := l.conn.announced + news));
    var r := NewRequester(l.shared.table[queue[0]].BlockCount());
    FreshRequester(t, l.shared.table, queue[0]);
    RequestNextBalances(t, l1, r);
    AllCountsAre(t, l.shared.table);
    RequestNextAccounted(l1, r, t.blocksPerPiece);
  }

  lemma EarlySpends(t: Torrent, l: Local, e: Event)
    requires t.Valid() && TableOk(t, l.shared.table) && Early(l, e) && LocalStep(l, e).Handled?
    ensures var l' := LocalStep(l, e).value;
      TableOk(t, l'.shared.table) && ConnTallies(l'.conn, t.blocksPerPiece) && Spent(l'.conn) == FirstRequests(l.conn)
  {
    match e
    case HaveMsg(_, payload) =>
      EnqueueSpends(t, l, l.conn.queue + [Uint32(payload)], [Uint32(payload)]);
    case BitfieldMsg(_, payload) =>
      var indices := PieceIndices(payload, MaxIdx(l.shared.table.Keys)).value;
      MergedNotEmpty(l.conn.queue, indices);
      EnqueueSpends(t, l, UniqueMerge(l.conn.queue, indices), Newcomers(l.conn.queue, indices));
  }

  /** What a step spends: one for every block that comes, and all open channels at an early announcement. */
  lemma StepSpends(t: Torrent, l: Local, e: Event)
    requires t.Valid() && TableOk(t, l.shared.table) && ConnTallies(l.conn, t.blocksPerPiece)
    requires HonestContent(t, e) && LocalStep(l, e).Handled?
    ensures var l' := LocalStep(l, e).value;
      && TableOk(t, l'.shared.table) && ConnTallies(l'.conn, t.blocksPerPiece)
      && Spent(l'.conn) == Spent(l.conn) + |ReplyIn(e)| + (if Early(l, e) then OpenCount(l.conn) else 0)
  {
    if Early(l, e) {
      EarlySpends(t, l, e);
    } else {
      StepIsExplained(t, l, e);
      StepAccounted(t, l, e);
      OrdinarySpends(t, l, LocalStep(l, e).value, ReplyIn(e));
    }
  }

  lemma OrdinarySpends(t: Torrent, l: Local, l': Local, reply: seq<BlockId>)
    requires t.Valid() && Explained(t, l, l') && Accounted(l, l', t.blocksPerPiece)
    requires l'.shared.saved == l.shared.saved + reply
    ensures TableOk(t, l'.shared.table) && ConnTallies(l'.conn, t.blocksPerPiece)
    ensures Spent(l'.conn) == Spent(l.conn) + |reply|
  {
  }

  ghost predicate AllTally(t: Torrent, w: World)
    requires t.Valid()
  {
    TableOk(t, w.shared.table) && forall c :: 0 <= c < |w.conns| ==> ConnTallies(w.conns[c], t.blocksPerPiece)
  }

  lemma AdvanceSpends(t: Torrent, w: World, e: Event, c: nat)
    requires t.Valid() && AllTally(t, w) && c < |w.conns| && HonestContent(t, e) && Advance(w, e).Handled?
    ensures var w' := Advance(w, e).value;
      && AllTally(t, w') && |w'.conns| == |w.conns|
      && Spent(w'.conns[c]) >= Spent(w.conns[c]) + |RepliesTo(c, [e])|
      && (e.conn == c && Early(At(w, c), e) && LocalStep(At(w, c), e).Handled? ==>
            Spent(w'.conns[c]) >= Spent(w.conns[c]) + OpenCount(w.conns[c]))
  {
    assert [e][..0] == [];
    if e.conn < |w.conns| {
      AdvanceIsLocal(w, e);
      if LocalStep(At(w, e.conn), e).Handled? {
        StepSpends(t, At(w, e.conn), e);
      }
    }
  }

  lemma FirstReplies(c: nat, es: seq<Event>)
    requires |es| > 0
    ensures |RepliesTo(c, es)| == |RepliesTo(c, [es[0]])| + |RepliesTo(c, es[1..])|
  {
    assert es == [es[0]] + es[1..];
    RepliesToAppend(c, [es[0]], es[1..]);
  }

  lemma {:induction false} RunSpends(t: Torrent, w: World, es: seq<Event>, c: nat)
    requires t.Valid() && AllTally(t, w) && c < |w.conns| && Run(w, es).Handled?
    requires forall e :: e in es ==> HonestContent(t, e)
    ensures var w' := Run(w, es).value;
      AllTally(t, w') && |w'.conns| == |w.conns| && Spent(w'.conns[c]) >= Spent(w.conns[c]) + |RepliesTo(c, es)|
    decreases |es|
  {
    if |es| > 0 {
      assert es[0] in es && forall e :: e in es[1..] ==> e in es;
      AdvanceSpends(t, w, es[0], c);
      RunSpends(t, Advance(w, es[0]).value, es[1..], c);
      FirstReplies(c, es);
    }
  }

  lemma {:induction false} DisciplinedContent(t: Torrent, w: World, es: seq<Event>)
    requires t.Valid() && DisciplinedRun(t, w, es) && Run(w, es).Handled?
    ensures forall e :: e in es ==> HonestContent(t, e)
    decreases |es|
  {
    if |es| > 0 {
      DisciplinedIsHonest(t, At(w, es[0].conn), es[0]);
      DisciplinedContent(t, Advance(w, es[0]).value, es[1..]);
      assert es == [es[0]] + es[1..];
    }
  }

  /** Whatever an early announcement names and whatever follows it, on any connection, as long as the replies
      are honest and the client goes on: the first requests of the connection stay ahead of the replies it
      takes in, by the blocks that were missing when the requester was replaced.  Some block has therefore been
      asked for on the connection more often than it has come: a peer that answers each REQUEST sends some
      reply that crashes or blocks the client. */
  lemma RequestsStayUnanswered(t: Torrent, w0: World, before: seq<Event>, w: World, e: Event, w1: World,
                               after: seq<Event>, w2: World)
    requires t.Valid() && Initial(t, w0) && LeadsTo(t, w0, before, w)
    requires e.conn < |w.conns| && Early(At(w, e.conn), e) && Step(w, e) == Handled(w1)
    requires (forall f :: f in after ==> HonestContent(t, f)) && Run(w1, after) == Handled(w2)
    ensures |w2.conns| == |w.conns| && OpenCount(w.conns[e.conn]) > 0
    ensures FirstRequests(w2.conns[e.conn])
         >= |RepliesTo(e.conn, before + [e] + after)| + OpenCount(w.conns[e.conn]) + OpenCount(w2.conns[e.conn])
    ensures !(multiset(RequestsIn(w2.conns[e.conn].sent)) <= multiset(RepliesTo(e.conn, before + [e] + after)))
  {
    var c := e.conn;
    RunKeepsConns(w0, before);
    SpentBefore(t, w0, before, w, c);
    AdvanceIsLocal(w, e);
    AdvanceSpends(t, w, e, c);
    RunSpends(t, w1, after, c);
    NoReplyBetween(c, before, e, after);
    RequestsSentAre(t, w0, before, w, e, w1, after, w2);
    FewerReplies(RequestsIn(w2.conns[c].sent), RepliesTo(c, before + [e] + after));
  }

  lemma NoReplyBetween(c: nat, before: seq<Event>, e: Event, after: seq<Event>)
    requires !e.PieceMsg?
    ensures |RepliesTo(c, before + [e] + after)| == |RepliesTo(c, before)| + |RepliesTo(c, after)|
  {
    RepliesToAppend(c, before + [e], after);
    RepliesToAppend(c, before, [e]);
    assert [e][..0] == [];
  }

  lemma RequestsSentAre(t: Torrent, w0: World, before: seq<Event>, w: World, e: Event, w1: World,
                        after: seq<Event>, w2: World)
    requires t.Valid() && Initial(t, w0) && Run(w0, before) == Handled(w) && e.conn < |w2.conns|
    requires Advance(w, e) == Handled(w1) && Run(w1, after) == Handled(w2)
    ensures |RequestsIn(w2.conns[e.conn].sent)| == |w2.conns[e.conn].sent|
  {
    RunOne(w, e, after);
    RunAppend(w0, before, [e] + after);
    OnlyBlocksAreAskedFor(t, w0, before + ([e] + after), w2, e.conn);
  }

  lemma FewerReplies(requests: seq<BlockId>, replies: seq<BlockId>)
    requires |replies| < |requests|
    ensures !(multiset(requests) <= multiset(replies))
  {
    if multiset(requests) <= multiset(replies) {
      NotFewer(requests, replies);
    }
  }

  lemma NotFewer(requests: seq<BlockId>, replies: seq<BlockId>)
    requires multiset(requests) <= multiset(replies)
    ensures |requests| <= |replies|
  {
    assert |multiset(replies) - multiset(requests)| == |replies| - |requests|;
  }

  lemma SpentBefore(t: Torrent, w0: World, before: seq<Event>, w: World, c: nat)
    requires t.Valid() && Initial(t, w0) && LeadsTo(t, w0, before, w) && c < |w0.conns|
    ensures AllTally(t, w) && |w.conns| == |w0.conns| && Spent(w.conns[c]) >= |RepliesTo(c, before)|
  {
    DisciplinedContent(t, w0, before);
    RunSpends(t, w0, before, c);
    assert Spent(w0.conns[c]) == 0;
  }

  lemma {:induction false} RunKeepsConns(w: World, es: seq<Event>)
    requires Run(w, es).Handled?
    ensures |Run(w, es).value.conns| == |w.conns|
    decreases |es|
  {
    if |es| > 0 {
      RunKeepsConns(Advance(w, es[0]).value, es[1..]);
    }
  }

  // ---------- an unknown piece ----------

  /** A piece outside the table waits in the queue of connection `c`. */
  ghost predicate Queued(w: World, c: nat, i: int) {
    c < |w.conns| && i in w.conns[c].queue && i !in w.shared.table
  }

  lemma RequestNextKeepsUnknown(l: Local, r: Requester, i: int)
    requires i in l.conn.queue && i !in l.shared.table && RequestNext(l, r).Handled?
    ensures i in RequestNext(l, r).value.conn.queue
    ensures RequestNext(l, r).value.shared.table.Keys == l.shared.table.Keys
  {
    NextIdleLaws(l.shared.table, l.conn.queue);
  }

  lemma MergeKeeps(a: seq<int>, b: seq<int>, i: int)
    requires i in a
    ensures i in UniqueMerge(a, b)
  {
    MergeIntoLaws([], a);
    MergeIntoLaws(MergeInto([], a), b);
  }

  lemma BlockKeepsUnknown(l: Local, b: Block, i: int)
    requires i in l.conn.queue && i !in l.shared.table && BlockStep(l, b).Handled?
    ensures i in BlockStep(l, b).value.conn.queue
  {
    var r := Receive(l.conn.requester.value, b.idx);
    if r.blocksLeft == 0 {
      LastStep(l, b);
      if |Undone(Between(l, b).shared.table)| != 0 {
        RequestNextKeepsUnknown(Between(l, b), r.(blocksLeft := l.conn.requester.value.total), i);
      }
    }
  }

  lemma StepKeepsUnknown(l: Local, e: Event, i: int)
    requires i in l.conn.queue && i !in l.shared.table && LocalStep(l, e).Handled?
    ensures i in LocalStep(l, e).value.conn.queue
  {
    match e
    case HaveMsg(_, _) =>
    case BitfieldMsg(_, payload) =>
      var indices := PieceIndices(payload, MaxIdx(l.shared.table.Keys)).value;
      MergeKeeps(l.conn.queue, indices, i);
    case PieceMsg(_, payload) => BlockKeepsUnknown(l, ReceivedBlock(payload).value, i);
    case Misfire(_, _) =>
  }

  lemma {:induction false} UnknownStays(w: World, es: seq<Event>, c: nat, i: int)
    requires Queued(w, c, i) && LogSound(w.shared) && Run(w, es).Handled?
    ensures Queued(Run(w, es).value, c, i)
    decreases |es|
  {
    if |es| > 0 {
      var e := es[0];
      AdvanceForward(w, e);
      if e.conn < |w.conns| {
        AdvanceIsLocal(w, e);
        if e.conn == c && LocalStep(At(w, c), e).Handled? {
          StepKeepsUnknown(At(w, c), e, i);
        }
      }
      UnknownStays(Advance(w, e).value, es[1..], c, i);
    }
  }

  /** A HAVE of a piece outside the table crashes the client if the queue is empty.  If it is not, the index
      stays in the queue for as long as the client runs: taking it out would crash the client, so that the
      connection never comes to rest. */
  lemma UnknownPieceIsFatal(w: World, c: nat, payload: seq<byte>, es: seq<Event>)
    requires c < |w.conns| && LogSound(w.shared) && |payload| >= 4 && Uint32(payload) !in w.shared.table
    requires Uint32(payload) !in w.conns[c].queue
    ensures |w.conns[c].queue| == 0 ==> Advance(w, HaveMsg(c, payload)) == Crashed
    ensures |w.conns[c].queue| > 0 && Run(w, [HaveMsg(c, payload)] + es).Handled? ==>
      var w' := Run(w, [HaveMsg(c, payload)] + es).value;
      c < |w'.conns| && Uint32(payload) in w'.conns[c].queue
  {
    var e, i := HaveMsg(c, payload), Uint32(payload);
    AdvanceIsLocal(w, e);
    if |w.conns[c].queue| > 0 {
      AdvanceForward(w, e);
      RunOne(w, e, es);
      assert i in (w.conns[c].queue + [i as int]);
      if Run(w, [e] + es).Handled? {
        UnknownStays(Advance(w, e).value, es, c, i);
      }
    }
  }
}
