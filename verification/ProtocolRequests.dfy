/** The REQUEST messages on the wire: which are sent when, and how they relate to the replies. */
module ProtocolRequests {
  import opened Wrappers
  import opened Bytes
  import opened Pieces
  import opened SliceUtil
  import opened Arithmetic
  import opened Addressing
  import opened PeerMessages
  import opened PeerMessageBytes
  import opened BitfieldMessages
  import opened Serving
  import opened Protocol
  import opened ProtocolInvariant
  import opened ProtocolSteps
  import opened ProtocolRuns
  import opened ProtocolReservations
  import opened ProtocolAccounts

  // ---------- which messages a step sends ----------

  /** The messages ask for the blocks, one for each and in their order. */
  ghost predicate Ask(msgs: seq<PeerMsg>, blocks: seq<Block>) {
    |msgs| == |blocks| && forall k :: 0 <= k < |msgs| ==> AsksFor(msgs[k], blocks[k])
  }

  lemma {:induction false} RequestsAsk(blocks: seq<Block>)
    ensures Ask(Requests(blocks), blocks)
  {
    if |blocks| > 0 {
      var front, last := blocks[..|blocks| - 1], blocks[|blocks| - 1];
      RequestsAsk(front);
      RequestPayload(last);
    }
  }

  /** With the reservation of a piece go messages asking for its blocks; without one nothing is sent. */
  ghost predicate SendsForReservation(a: Local, b: Local) {
    && a.conn.sent <= b.conn.sent
    && if b.shared.reservations == a.shared.reservations then b.conn.sent == a.conn.sent
       else exists i :: i in a.shared.table && ReservesAndAsks(a, b, i)
  }

  ghost predicate ReservesAndAsks(a: Local, b: Local, i: int)
    requires i in a.shared.table
  {
    && a.shared.table[i].status == Idle && b.shared.reservations == a.shared.reservations + [i]
    && a.conn.sent <= b.conn.sent && Ask(b.conn.sent[|a.conn.sent|..], a.shared.table[i].blocks)
  }

  lemma RequestNextSends(l: Local, r: Requester)
    requires RequestNext(l, r).Handled?
    ensures SendsForReservation(l, RequestNext(l, r).value)
  {
    NextIdleLaws(l.shared.table, l.conn.queue);
    match NextIdle(l.shared.table, l.conn.queue)
    case Reserved(_, i, rest) =>
      RequestsAsk(l.shared.table[i].blocks);
      assert ReservesAndAsks(l, ReserveFor(l, r, i, rest), i);
    case _ =>
  }

  lemma EnqueueSends(l: Local, queue: seq<int>, news: seq<int>)
    requires |queue| > 0 && Enqueue(l, queue, news).Handled?
    ensures SendsForReservation(l, Enqueue(l, queue, news).value)
  {
    if |l.conn.queue| == 0 {
      var l1 := l.(conn := l.conn.(queue := queue, announced := l.conn.announced + news));
      RequestNextSends(l1, NewRequester(l.shared.table[queue[0]].BlockCount()));
      SameStart(l, l1, Enqueue(l, queue, news).value);
    }
  }

  lemma SameStart(a: Local, a1: Local, b: Local)
    requires SendsForReservation(a1, b) && a1.conn.sent == a.conn.sent
    requires a1.shared.reservations == a.shared.reservations && a1.shared.table.Keys == a.shared.table.Keys
    requires forall i :: i in a.shared.table && a1.shared.table[i].status == Idle ==>
      a.shared.table[i] == a1.shared.table[i]
    ensures SendsForReservation(a, b)
  {
    if b.shared.reservations != a.shared.reservations {
      var i :| i in a1.shared.table && ReservesAndAsks(a1, b, i);
      assert ReservesAndAsks(a, b, i);
    }
  }

  lemma ReplySends(l: Local, payload: seq<byte>)
    requires PieceStep(l, payload).Handled?
    ensures SendsForReservation(l, PieceStep(l, payload).value)
  {
    var b := ReceivedBlock(payload).value;
    var r := Receive(l.conn.requester.value, b.idx);
    if r.blocksLeft == 0 {
      var l1 := Between(l, b);
      if |Undone(l1.shared.table)| != 0 {
        RequestNextSends(l1, r.(blocksLeft := r.total));
        SameStart(l, l1, PieceStep(l, payload).value);
      }
    }
  }

  /** The messages of a step.  On the reservation of a piece: one message for each of its blocks, in their order,
      with that block's indices and length.  On a misfire, unless there have been too many: one message for the
      block whose request misfired.  On nothing else: nothing. */
  lemma MessagesSent(l: Local, e: Event)
    requires LocalStep(l, e).Handled?
    ensures !e.Misfire? ==> SendsForReservation(l, LocalStep(l, e).value)
    ensures e.Misfire? ==>
      && l.conn.requester.Some? && e.block in l.conn.requester.value.waiting
      && LocalStep(l, e).value.shared == l.shared
      && var sent := LocalStep(l, e).value.conn.sent;
         if l.conn.misfires >= ALLOWED_MISFIRES then sent == l.conn.sent
         else |sent| == |l.conn.sent| + 1 && l.conn.sent <= sent
              && AsksFor(sent[|l.conn.sent|], l.conn.requester.value.waiting[e.block])
  {
    match e
    case HaveMsg(_, payload) =>
      if Uint32(payload) !in l.conn.queue {
        EnqueueSends(l, l.conn.queue + [Uint32(payload)], [Uint32(payload)]);
      }
    case BitfieldMsg(_, payload) =>
      var indices := PieceIndices(payload, MaxIdx(l.shared.table.Keys)).value;
      if |indices| > 0 {
        MergedNotEmpty(l.conn.queue, indices);
        EnqueueSends(l, UniqueMerge(l.conn.queue, indices), Newcomers(l.conn.queue, indices));
      }
    case PieceMsg(_, payload) => ReplySends(l, payload);
    case Misfire(_, k) => RequestsAsk([l.conn.requester.value.waiting[k]]);
  }

  // ---------- reading the messages ----------

  /** The block that a message asks for, if it is a REQUEST. */
  function RequestIn(m: PeerMsg): seq<BlockId> {
    if m.kind.Request? && RequestedBlock(m.payload).Ok? then [RequestedBlock(m.payload).value.Id()] else []
  }

  /** The blocks that messages ask for, in their order. */
  function RequestsIn(msgs: seq<PeerMsg>): (ids: seq<BlockId>)
    ensures |ids| <= |msgs|
  {
    if |msgs| == 0 then [] else RequestsIn(msgs[..|msgs| - 1]) + RequestIn(msgs[|msgs| - 1])
  }

  lemma {:induction false} RequestsInAppend(a: seq<PeerMsg>, b: seq<PeerMsg>)
    ensures RequestsIn(a + b) == RequestsIn(a) + RequestsIn(b)
  {
    if |b| == 0 {
      assert a + b == a;
    } else {
      var front, last := b[..|b| - 1], b[|b| - 1];
      RequestsInAppend(a, front);
      LastOfSum(a, b);
      SumsAssociate(RequestsIn(a), RequestsIn(front), RequestIn(last));
    }
  }

  lemma LastOfSum(a: seq<PeerMsg>, b: seq<PeerMsg>)
    requires |b| > 0
    ensures (a + b)[..|a + b| - 1] == a + b[..|b| - 1] && (a + b)[|a + b| - 1] == b[|b| - 1]
  {
  }

  lemma SumsAssociate<T>(a: seq<T>, b: seq<T>, c: seq<T>)
    ensures a + b + c == a + (b + c)
  {
  }

  /** The message asks for block `k` of piece `p`: kind, piece index, offset and length. */
  predicate AsksForBlock(t: Torrent, m: PeerMsg, p: int, k: int) {
    && m.kind.Request? && |m.payload| == 12
    && NumberAt(m.payload, 0, p) && NumberAt(m.payload, 4, k * t.blockLength) && NumberAt(m.payload, 8, t.blockLength)
  }

  /** Such a message is read as what it asks for. */
  lemma AskedIsRead(t: Torrent, m: PeerMsg, p: int, k: int)
    requires t.Valid() && t.HasBlock(p, k) && AsksForBlock(t, m, p, k)
    ensures RequestIn(m) == [BlockId(p, k)]
  {
    RequestFields(m.payload, p, k * t.blockLength, t.blockLength);
    QuotientUnique(k, 0, t.blockLength);
  }

  lemma UniformIsAsked(t: Torrent, m: PeerMsg, p: int, k: int)
    requires t.Valid() && t.HasBlock(p, k) && AsksFor(m, t.UniformBlock(p, k))
    ensures AsksForBlock(t, m, p, k)
  {
    FieldsFit(t, p, k);
    Fits(p);
    Fits(k * t.blockLength);
    Fits(t.blockLength);
  }

  lemma Fits(x: int)
    requires 0 <= x < TWO_TO_32
    ensures x % TWO_TO_32 == x
  {
  }

  /** The message is a REQUEST for some block of the torrent. */
  ghost predicate AsksForSome(t: Torrent, m: PeerMsg) {
    exists p, k :: t.HasBlock(p, k) && AsksForBlock(t, m, p, k)
  }

  ghost predicate AllAsk(t: Torrent, msgs: seq<PeerMsg>) {
    forall i :: 0 <= i < |msgs| ==> AsksForSome(t, msgs[i])
  }

  lemma {:induction false} AllAreRead(t: Torrent, msgs: seq<PeerMsg>)
    requires t.Valid() && AllAsk(t, msgs)
    ensures |RequestsIn(msgs)| == |msgs|
  {
    if |msgs| > 0 {
      var last := msgs[|msgs| - 1];
      AllAreRead(t, msgs[..|msgs| - 1]);
      assert AsksForSome(t, last);
      var p, k :| t.HasBlock(p, k) && AsksForBlock(t, last, p, k);
      AskedIsRead(t, last, p, k);
    }
  }

  lemma {:induction false} ReadOneByOne(msgs: seq<PeerMsg>, ids: seq<BlockId>)
    requires |msgs| == |ids| && forall i :: 0 <= i < |msgs| ==> RequestIn(msgs[i]) == [ids[i]]
    ensures RequestsIn(msgs) == ids
  {
    if |msgs| > 0 {
      var n := |msgs| - 1;
      ReadOneByOne(msgs[..n], ids[..n]);
      assert ids == ids[..n] + [ids[n]];
    }
  }

  /** The messages asking for the blocks of a piece, field by field, and what is read from them. */
  lemma AskedAreRead(t: Torrent, p: int, msgs: seq<PeerMsg>, blocks: seq<Block>)
    requires t.Valid() && 0 <= p < t.pieces && t.UniformBlocks(p, blocks) && Ask(msgs, blocks)
    ensures |msgs| == t.blocksPerPiece
    ensures forall k :: 0 <= k < |msgs| ==> AsksForBlock(t, msgs[k], p, k)
    ensures AllAsk(t, msgs) && RequestsIn(msgs) == Ids(blocks)
  {
    forall k | 0 <= k < |msgs|
      ensures AsksForBlock(t, msgs[k], p, k) && AsksForSome(t, msgs[k]) && RequestIn(msgs[k]) == [Ids(blocks)[k]]
    {
      AskedBlock(t, p, msgs[k], blocks, k);
    }
    ReadOneByOne(msgs, Ids(blocks));
  }

  lemma AskedBlock(t: Torrent, p: int, m: PeerMsg, blocks: seq<Block>, k: nat)
    requires t.Valid() && 0 <= p < t.pieces && t.UniformBlocks(p, blocks) && k < |blocks| && AsksFor(m, blocks[k])
    ensures AsksForBlock(t, m, p, k) && AsksForSome(t, m) && RequestIn(m) == [blocks[k].Id()]
  {
    assert t.HasBlock(p, k);
    UniformIsAsked(t, m, p, k);
    AskedIsRead(t, m, p, k);
  }

  /** Every time-out that runs is for a block of the torrent. */
  ghost predicate WaitsForBlocks(t: Torrent, c: Conn)
    requires t.Valid()
  {
    forall k :: k in Waiting(c) ==>
      var b := c.requester.value.waiting[k]; t.HasBlock(b.pieceIdx, k) && b == t.UniformBlock(b.pieceIdx, k)
  }

  /** Piece `i` has been reserved, and the messages sent are REQUESTs for its blocks, one for each, in order. */
  ghost predicate AsksForPiece(t: Torrent, a: Local, b: Local, i: int) {
    && 0 <= i < t.pieces && b.shared.reservations == a.shared.reservations + [i]
    && a.conn.sent <= b.conn.sent
    && var news := b.conn.sent[|a.conn.sent|..];
       |news| == t.blocksPerPiece && forall k :: 0 <= k < |news| ==> AsksForBlock(t, news[k], i, k)
  }

  /** The messages of a step on a uniform torrent, field by field: whenever a piece is reserved, and only then
      except for misfires, its blocks are asked for. */
  lemma UniformMessagesSent(t: Torrent, l: Local, e: Event)
    requires t.Valid() && TableOk(t, l.shared.table) && LocalStep(l, e).Handled?
    ensures var l' := LocalStep(l, e).value;
      if l'.shared.reservations != l.shared.reservations then exists i :: AsksForPiece(t, l, l', i)
      else !e.Misfire? ==> l'.conn.sent == l.conn.sent
  {
    MessagesSent(l, e);
    var l' := LocalStep(l, e).value;
    if l'.shared.reservations != l.shared.reservations {
      var i :| i in l.shared.table && ReservesAndAsks(l, l', i);
      AskedAreRead(t, i, l'.conn.sent[|l.conn.sent|..], l.shared.table[i].blocks);
      assert AsksForPiece(t, l, l', i);
    }
  }

  /** A misfire that is not one too many sends one message: a REQUEST for the block whose request misfired. */
  lemma BlockAskedForAgain(t: Torrent, l: Local, k: int)
    requires t.Valid() && WaitsForBlocks(t, l.conn) && k in Waiting(l.conn)
    ensures MisfireStep(l, k).Handled?
    ensures var sent := MisfireStep(l, k).value.conn.sent;
      if l.conn.misfires >= ALLOWED_MISFIRES then sent == l.conn.sent
      else |sent| == |l.conn.sent| + 1 && l.conn.sent <= sent
           && AsksForBlock(t, sent[|l.conn.sent|], l.conn.requester.value.waiting[k].pieceIdx, k)
  {
    var b := l.conn.requester.value.waiting[k];
    MessagesSent(l, Misfire(0, k));
    if l.conn.misfires < ALLOWED_MISFIRES {
      UniformIsAsked(t, MisfireStep(l, k).value.conn.sent[|l.conn.sent|], b.pieceIdx, k);
    }
  }

  // ---------- requests and replies of a connection ----------

  /** What a step that brings `replies` and sends messages does to the books of its connection. */
  ghost predicate Books(t: Torrent, a: Conn, b: Conn, replies: seq<BlockId>)
    requires t.Valid()
  {
    && WaitsForBlocks(t, b) && a.sent <= b.sent
    && var news := b.sent[|a.sent|..];
       AllAsk(t, news) && b.owed == a.owed - multiset(replies) + multiset(RequestsIn(news))
  }

  lemma ReservingBooks(t: Torrent, l: Local, r: Requester, i: int, rest: seq<int>)
    requires t.Valid() && TableOk(t, l.shared.table) && i in l.shared.table
    requires WaitsForBlocks(t, l.conn.(requester := Some(r)))
    ensures Books(t, l.conn, ReserveFor(l, r, i, rest).conn, [])
  {
    var blocks := l.shared.table[i].blocks;
    RequestsAsk(blocks);
    AskedAreRead(t, i, Requests(blocks), blocks);
    assert ReserveFor(l, r, i, rest).conn.sent[|l.conn.sent|..] == Requests(blocks);
    StillWaitsForBlocks(t, i, blocks, l.conn.(requester := Some(r)), ReserveFor(l, r, i, rest).conn);
  }

  lemma StillWaitsForBlocks(t: Torrent, p: int, blocks: seq<Block>, c: Conn, c': Conn)
    requires t.Valid() && 0 <= p < t.pieces && t.UniformBlocks(p, blocks) && WaitsForBlocks(t, c)
    requires c.requester.Some? && c'.requester == Some(RequestAll(c.requester.value, blocks))
    ensures WaitsForBlocks(t, c')
  {
    forall k | k in Waiting(c')
      ensures var b := c'.requester.value.waiting[k];
        t.HasBlock(b.pieceIdx, k) && b == t.UniformBlock(b.pieceIdx, k)
    {
      RequestedOrWaiting(c.requester.value, blocks, k);
      if k in BlockIdxs(blocks) {
        IdxsOfUniform(t, p, blocks);
      }
    }
  }

  lemma {:induction false} RequestedOrWaiting(r: Requester, blocks: seq<Block>, k: int)
    requires k in RequestAll(r, blocks).waiting
    ensures var b := RequestAll(r, blocks).waiting[k];
      (b in blocks && b.idx == k) || (k in r.waiting && b == r.waiting[k])
  {
    if |blocks| > 0 {
      var front, last := blocks[..|blocks| - 1], blocks[|blocks| - 1];
      assert blocks == front + [last];
      if k != last.idx {
        RequestedOrWaiting(r, front, k);
      }
    }
  }

  lemma RequestNextBooks(t: Torrent, l: Local, r: Requester)
    requires t.Valid() && TableOk(t, l.shared.table) && RequestNext(l, r).Handled?
    requires WaitsForBlocks(t, l.conn.(requester := Some(r)))
    ensures Books(t, l.conn, RequestNext(l, r).value.conn, [])
  {
    match NextIdle(l.shared.table, l.conn.queue)
    case Reserved(_, i, rest) => ReservingBooks(t, l, r, i, rest);
    case _ =>
  }

  lemma EnqueueBooks(t: Torrent, l: Local, queue: seq<int>, news: seq<int>)
    requires t.Valid() && TableOk(t, l.shared.table) && WaitsForBlocks(t, l.conn)
    requires |queue| > 0 && Enqueue(l, queue, news).Handled?
    ensures Books(t, l.conn, Enqueue(l, queue, news).value.conn, [])
  {
    if |l.conn.queue| == 0 {
      RequestNextBooks(t, l.(conn := l.conn.(queue := queue, announced := l.conn.announced + news)),
                       NewRequester(l.shared.table[queue[0]].BlockCount()));
    }
  }

  lemma ReplyBooks(t: Torrent, l: Local, payload: seq<byte>)
    requires t.Valid() && TableOk(t, l.shared.table) && WaitsForBlocks(t, l.conn)
    requires PieceStep(l, payload).Handled?
    ensures Books(t, l.conn, PieceStep(l, payload).value.conn, [ReceivedBlock(payload).value.Id()])
  {
    var b := ReceivedBlock(payload).value;
    var r := Receive(l.conn.requester.value, b.idx);
    if r.blocksLeft == 0 {
      var l1 := Between(l, b);
      FinishKeepsTable(t, l.shared.table, b.pieceIdx);
      if |Undone(l1.shared.table)| != 0 {
        RequestNextBooks(t, l1, r.(blocksLeft := r.total));
      }
    }
  }

  lemma AskedOnce(t: Torrent, p: int, k: int)
    requires t.Valid() && t.HasBlock(p, k)
    ensures var b := t.UniformBlock(p, k);
      AllAsk(t, Requests([b])) && RequestsIn(Requests([b])) == [BlockId(p, k)]
  {
    var b := t.UniformBlock(p, k);
    var msgs := Requests([b]);
    RequestsAsk([b]);
    UniformIsAsked(t, msgs[0], p, k);
    AskedIsRead(t, msgs[0], p, k);
    ReadOneByOne(msgs, [BlockId(p, k)]);
  }

  lemma MisfireWaits(t: Torrent, l: Local, k: int)
    requires t.Valid() && WaitsForBlocks(t, l.conn) && MisfireStep(l, k).Handled?
    ensures WaitsForBlocks(t, MisfireStep(l, k).value.conn)
  {
  }

  lemma OneId(b: Block)
    ensures Ids([b]) == [b.Id()]
  {
  }

  lemma SentAgain(t: Torrent, a: Conn, b: Conn, block: Block)
    requires t.Valid() && t.HasBlock(block.pieceIdx, block.idx)
    requires block == t.UniformBlock(block.pieceIdx, block.idx) && WaitsForBlocks(t, b)
    requires b.sent == a.sent + Requests([block]) && b.owed == a.owed + multiset(Ids([block]))
    ensures Books(t, a, b, [])
  {
    AskedOnce(t, block.pieceIdx, block.idx);
    OneId(block);
    assert b.sent[|a.sent|..] == Requests([block]);
  }

  lemma MisfireBooks(t: Torrent, l: Local, k: int)
    requires t.Valid() && WaitsForBlocks(t, l.conn) && MisfireStep(l, k).Handled?
    ensures Books(t, l.conn, MisfireStep(l, k).value.conn, [])
  {
    MisfireWaits(t, l, k);
    assert k in Waiting(l.conn);
    if l.conn.misfires < ALLOWED_MISFIRES {
      SentAgain(t, l.conn, MisfireStep(l, k).value.conn, l.conn.requester.value.waiting[k]);
    }
  }

  lemma HaveBooks(t: Torrent, l: Local, payload: seq<byte>)
    requires t.Valid() && TableOk(t, l.shared.table) && WaitsForBlocks(t, l.conn) && HaveStep(l, payload).Handled?
    ensures Books(t, l.conn, HaveStep(l, payload).value.conn, [])
  {
    if Uint32(payload) !in l.conn.queue {
      EnqueueBooks(t, l, l.conn.queue + [Uint32(payload)], [Uint32(payload)]);
    }
  }

  lemma BitfieldBooks(t: Torrent, l: Local, payload: seq<byte>)
    requires t.Valid() && TableOk(t, l.shared.table) && WaitsForBlocks(t, l.conn) && BitfieldStep(l, payload).Handled?
    ensures Books(t, l.conn, BitfieldStep(l, payload).value.conn, [])
  {
    var indices := PieceIndices(payload, MaxIdx(l.shared.table.Keys)).value;
    if |indices| > 0 {
      MergedNotEmpty(l.conn.queue, indices);
      EnqueueBooks(t, l, UniqueMerge(l.conn.queue, indices), Newcomers(l.conn.queue, indices));
    }
  }

  lemma StepBooks(t: Torrent, l: Local, e: Event)
    requires t.Valid() && TableOk(t, l.shared.table) && WaitsForBlocks(t, l.conn) && LocalStep(l, e).Handled?
    ensures Books(t, l.conn, LocalStep(l, e).value.conn, ReplyIn(e))
  {
    match e
    case HaveMsg(_, payload) => HaveBooks(t, l, payload);
    case BitfieldMsg(_, payload) => BitfieldBooks(t, l, payload);
    case PieceMsg(_, payload) => ReplyBooks(t, l, payload);
    case Misfire(_, k) => MisfireBooks(t, l, k);
  }

  /** How often each block has been asked for on a connection. */
  function Asked(c: Conn): multiset<BlockId> { multiset(RequestsIn(c.sent)) }

  /** The blocks that peers have sent on connection `c`. */
  function RepliesTo(c: nat, es: seq<Event>): seq<BlockId> {
    if |es| == 0 then []
    else RepliesTo(c, es[..|es| - 1]) + if es[|es| - 1].conn == c then ReplyIn(es[|es| - 1]) else []
  }

  lemma {:induction false} RepliesToAppend(c: nat, es: seq<Event>, fs: seq<Event>)
    ensures RepliesTo(c, es + fs) == RepliesTo(c, es) + RepliesTo(c, fs)
  {
    if |fs| == 0 {
      assert es + fs == es;
    } else {
      RepliesToAppend(c, es, fs[..|fs| - 1]);
      assert (es + fs)[..|es + fs| - 1] == es + fs[..|fs| - 1];
    }
  }

  lemma {:induction false} RepliesAreAmongAll(c: nat, es: seq<Event>)
    ensures forall id :: id in RepliesTo(c, es) ==> id in RepliesIn(es)
  {
    if |es| > 0 {
      RepliesAreAmongAll(c, es[1..]);
      assert [es[0]][..0] == [] && es == [es[0]] + es[1..];
      RepliesToAppend(c, [es[0]], es[1..]);
    }
  }

  /** The REQUESTs for a block and the replies with it account for what is still owed: never more is owed than has
      been asked for, and never less than what has been asked for and not brought. */
  ghost predicate Ledger(c: Conn, replies: seq<BlockId>) {
    forall id :: c.owed[id] <= Asked(c)[id] <= c.owed[id] + multiset(replies)[id]
  }

  /** Exactly what has been asked for and not been brought is owed. */
  ghost predicate ExactLedger(c: Conn, replies: seq<BlockId>) {
    Asked(c) == c.owed + multiset(replies)
  }

  lemma AskedGrows(a: Conn, b: Conn)
    requires a.sent <= b.sent
    ensures Asked(b) == Asked(a) + multiset(RequestsIn(b.sent[|a.sent|..]))
  {
    assert b.sent == a.sent + b.sent[|a.sent|..];
    RequestsInAppend(a.sent, b.sent[|a.sent|..]);
  }

  lemma LedgerAfter(t: Torrent, a: Conn, b: Conn, past: seq<BlockId>, replies: seq<BlockId>)
    requires t.Valid() && Books(t, a, b, replies) && Ledger(a, past)
    ensures Ledger(b, past + replies)
    ensures ExactLedger(a, past) && multiset(replies) <= a.owed ==> ExactLedger(b, past + replies)
  {
    AskedGrows(a, b);
  }

  // ---------- runs ----------

  ghost predicate RequestsOk(t: Torrent, w: World, past: seq<Event>) {
    && t.Valid() && TableOk(t, w.shared.table) && LogSound(w.shared)
    && forall c :: 0 <= c < |w.conns| ==> ConnRequestsOk(t, w.conns[c], RepliesTo(c, past))
  }

  /** Only blocks of the torrent are asked and waited for, and the books are in order. */
  ghost predicate ConnRequestsOk(t: Torrent, c: Conn, replies: seq<BlockId>)
    requires t.Valid()
  {
    WaitsForBlocks(t, c) && AllAsk(t, c.sent) && Ledger(c, replies)
  }

  lemma InitialRequests(t: Torrent, w: World)
    requires t.Valid() && Initial(t, w)
    ensures RequestsOk(t, w, [])
    ensures forall c :: 0 <= c < |w.conns| ==> ExactLedger(w.conns[c], RepliesTo(c, []))
  {
    forall c | 0 <= c < |w.conns|
      ensures w.conns[c].sent == [] && Waiting(w.conns[c]) == {} && w.conns[c].owed == multiset{}
    {
    }
  }

  lemma AllAskAfter(t: Torrent, a: Conn, b: Conn)
    requires AllAsk(t, a.sent) && a.sent <= b.sent && AllAsk(t, b.sent[|a.sent|..])
    ensures AllAsk(t, b.sent)
  {
    forall i | 0 <= i < |b.sent|
      ensures AsksForSome(t, b.sent[i])
    {
      assert b.sent[i] == if i < |a.sent| then a.sent[i] else b.sent[|a.sent|..][i - |a.sent|];
    }
  }

  lemma TableStays(t: Torrent, a: Shared, b: Shared)
    requires t.Valid() && TableOk(t, a.table) && Forward(a, b)
    ensures TableOk(t, b.table)
  {
    forall i | 0 <= i < t.pieces
      ensures t.UniformBlocks(i, b.table[i].blocks)
    {
      assert t.UniformBlocks(i, a.table[i].blocks);
    }
  }

  lemma RejectedBringsNothing(l: Local, e: Event)
    requires LocalStep(l, e).Rejected?
    ensures ReplyIn(e) == []
  {
    if e.PieceMsg? && ReceivedBlock(e.payload).Ok? {
      BlocksAreNotRejected(l, ReceivedBlock(e.payload).value);
    }
  }

  lemma BlocksAreNotRejected(l: Local, b: Block)
    ensures !BlockStep(l, b).Rejected?
  {
  }

  /** What a handled delivery does on its connection. */
  lemma StepRequests(t: Torrent, l: Local, e: Event, past: seq<BlockId>)
    requires t.Valid() && TableOk(t, l.shared.table) && ConnRequestsOk(t, l.conn, past) && LocalStep(l, e).Handled?
    ensures ConnRequestsOk(t, LocalStep(l, e).value.conn, past + ReplyIn(e))
    ensures ExactLedger(l.conn, past) && multiset(ReplyIn(e)) <= l.conn.owed ==>
      ExactLedger(LocalStep(l, e).value.conn, past + ReplyIn(e))
  {
    var c := LocalStep(l, e).value.conn;
    StepBooks(t, l, e);
    LedgerAfter(t, l.conn, c, past, ReplyIn(e));
    AllAskAfter(t, l.conn, c);
  }

  lemma RepliesToSnoc(c: nat, past: seq<Event>, e: Event)
    ensures RepliesTo(c, past + [e]) == if e.conn == c then RepliesTo(c, past) + ReplyIn(e) else RepliesTo(c, past)
  {
    assert (past + [e])[..|past + [e]| - 1] == past;
    assert RepliesTo(c, past) + [] == RepliesTo(c, past);
  }

  /** What one delivery does on connection `c`. */
  lemma ConnAfter(t: Torrent, w: World, past: seq<Event>, e: Event, c: nat)
    requires RequestsOk(t, w, past) && Advance(w, e).Handled? && c < |w.conns|
    ensures var w' := Advance(w, e).value;
      && |w'.conns| == |w.conns| && ConnRequestsOk(t, w'.conns[c], RepliesTo(c, past + [e]))
      && (ExactLedger(w.conns[c], RepliesTo(c, past)) && (e.conn == c ==> multiset(ReplyIn(e)) <= w.conns[c].owed) ==>
            ExactLedger(w'.conns[c], RepliesTo(c, past + [e])))
  {
    RepliesToSnoc(c, past, e);
    if e.conn < |w.conns| {
      AdvanceIsLocal(w, e);
      if LocalStep(At(w, e.conn), e).Handled? {
        if e.conn == c {
          StepRequests(t, At(w, c), e, RepliesTo(c, past));
        }
      } else {
        RejectedBringsNothing(At(w, e.conn), e);
      }
    }
  }

  lemma AdvanceRequests(t: Torrent, w: World, past: seq<Event>, e: Event)
    requires RequestsOk(t, w, past) && Advance(w, e).Handled?
    ensures RequestsOk(t, Advance(w, e).value, past + [e])
  {
    var w' := Advance(w, e).value;
    AdvanceForward(w, e);
    TableStays(t, w.shared, w'.shared);
    forall c | 0 <= c < |w'.conns|
      ensures ConnRequestsOk(t, w'.conns[c], RepliesTo(c, past + [e]))
    {
      ConnAfter(t, w, past, e, c);
    }
  }

  lemma PastAssociates(past: seq<Event>, es: seq<Event>)
    requires |es| > 0
    ensures past + [es[0]] + es[1..] == past + es
  {
  }

  lemma {:induction false} RunRequests(t: Torrent, w: World, past: seq<Event>, es: seq<Event>)
    requires RequestsOk(t, w, past) && Run(w, es).Handled?
    ensures RequestsOk(t, Run(w, es).value, past + es)
    decreases |es|
  {
    if |es| == 0 {
      assert past + es == past;
    } else {
      AdvanceRequests(t, w, past, es[0]);
      RunRequests(t, Advance(w, es[0]).value, past + [es[0]], es[1..]);
      PastAssociates(past, es);
    }
  }

  /** Whatever the messages and whenever they come: everything a client sends on its connections are REQUESTs for
      blocks of the torrent; and a block that no reply on the connection has brought is owed as often as it has
      been asked for. */
  lemma OnlyBlocksAreAskedFor(t: Torrent, w0: World, es: seq<Event>, w: World, c: nat)
    requires t.Valid() && Initial(t, w0) && Run(w0, es) == Handled(w) && c < |w.conns|
    ensures AllAsk(t, w.conns[c].sent) && |RequestsIn(w.conns[c].sent)| == |w.conns[c].sent|
    ensures Ledger(w.conns[c], RepliesTo(c, es))
    ensures forall id :: id !in RepliesTo(c, es) ==> w.conns[c].owed[id] == Asked(w.conns[c])[id]
  {
    InitialRequests(t, w0);
    RunRequests(t, w0, [], es);
    assert [] + es == es;
    AllAreRead(t, w.conns[c].sent);
  }

  // ---------- runs in which replies answer REQUESTs ----------

  /** The reply, if it is one, is an answer to a REQUEST: the block has been asked for on the connection more often
      than it has come. */
  ghost predicate Answers(w: World, past: seq<Event>, e: Event) {
    && e.conn < |w.conns|
    && forall id :: id in ReplyIn(e) ==> multiset(RepliesTo(e.conn, past))[id] < Asked(w.conns[e.conn])[id]
  }

  /** Every reply of the run answers a REQUEST that was sent on its connection and has not been answered. */
  ghost predicate AnswersRequests(w: World, past: seq<Event>, es: seq<Event>)
    decreases |es|
  {
    |es| == 0 ||
    (Answers(w, past, es[0])
     && (Advance(w, es[0]).Handled? ==> AnswersRequests(Advance(w, es[0]).value, past + [es[0]], es[1..])))
  }

  ghost predicate AllExact(w: World, past: seq<Event>) {
    forall c :: 0 <= c < |w.conns| ==> ExactLedger(w.conns[c], RepliesTo(c, past))
  }

  lemma OneReply(asked: multiset<BlockId>, owed: multiset<BlockId>, replies: multiset<BlockId>, reply: seq<BlockId>)
    requires asked == owed + replies && |reply| <= 1
    ensures (forall id :: id in reply ==> replies[id] < asked[id]) <==> multiset(reply) <= owed
  {
    if |reply| == 1 {
      var id := reply[0];
      assert reply == [id] && id in reply;
      assert multiset(reply) == multiset{id};
      assert asked[id] == owed[id] + replies[id];
    } else {
      assert reply == [];
    }
  }

  lemma AnswersIffOwed(w: World, past: seq<Event>, e: Event)
    requires AllExact(w, past)
    ensures Answers(w, past, e) <==> e.conn < |w.conns| && multiset(ReplyIn(e)) <= w.conns[e.conn].owed
  {
    if e.conn < |w.conns| {
      var c := w.conns[e.conn];
      assert ExactLedger(c, RepliesTo(e.conn, past));
      OneReply(Asked(c), c.owed, multiset(RepliesTo(e.conn, past)), ReplyIn(e));
    }
  }

  lemma AdvanceExact(t: Torrent, w: World, past: seq<Event>, e: Event)
    requires RequestsOk(t, w, past) && AllExact(w, past) && Answers(w, past, e) && Advance(w, e).Handled?
    ensures AllExact(Advance(w, e).value, past + [e])
  {
    AnswersIffOwed(w, past, e);
    forall c | 0 <= c < |w.conns|
      ensures |Advance(w, e).value.conns| == |w.conns|
      ensures ExactLedger(Advance(w, e).value.conns[c], RepliesTo(c, past + [e]))
    {
      assert ExactLedger(w.conns[c], RepliesTo(c, past));
      ConnAfter(t, w, past, e, c);
    }
    ConnAfter(t, w, past, e, e.conn);
  }

  lemma {:induction false} RunExact(t: Torrent, w: World, past: seq<Event>, es: seq<Event>)
    requires RequestsOk(t, w, past) && AllExact(w, past) && AnswersRequests(w, past, es) && Run(w, es).Handled?
    ensures AllExact(Run(w, es).value, past + es)
    decreases |es|
  {
    if |es| == 0 {
      assert past + es == past;
    } else {
      AdvanceRequests(t, w, past, es[0]);
      AdvanceExact(t, w, past, es[0]);
      RunExact(t, Advance(w, es[0]).value, past + [es[0]], es[1..]);
      PastAssociates(past, es);
    }
  }

  /** In a run whose replies all answer REQUESTs, on every connection the REQUESTs sent for a block are those
      answered by a reply and those still owed. */
  lemma RequestsAreAnsweredOrOwed(t: Torrent, w0: World, es: seq<Event>, w: World, c: nat)
    requires t.Valid() && Initial(t, w0) && Run(w0, es) == Handled(w) && AnswersRequests(w0, [], es)
    requires c < |w.conns|
    ensures multiset(RequestsIn(w.conns[c].sent)) == w.conns[c].owed + multiset(RepliesTo(c, es))
  {
    InitialRequests(t, w0);
    RunExact(t, w0, [], es);
    assert [] + es == es;
    assert ExactLedger(w.conns[c], RepliesTo(c, es));
  }
}
