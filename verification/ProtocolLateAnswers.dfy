/** A run in which every reply answers a REQUEST and the finished file is nevertheless too short. */
module ProtocolLateAnswers {
  import opened Wrappers
  import opened Bytes
  import opened SliceUtil
  import opened Cardinality
  import opened Arithmetic
  import opened Pieces
  import opened Bitfields
  import opened Addressing
  import opened BitfieldMessages
  import opened Serving
  import opened Protocol
  import opened ProtocolInvariant
  import opened ProtocolSteps
  import opened ProtocolExactness
  import opened ProtocolRuns
  import opened ProtocolAccounts
  import opened ProtocolRequests

  /** Every reply of the run brings a block that is owed. */
  ghost predicate BringsWhatIsOwed(w: World, es: seq<Event>)
    decreases |es|
  {
    |es| == 0 ||
    (es[0].conn < |w.conns| && (forall id :: id in ReplyIn(es[0]) ==> id in w.conns[es[0].conn].owed)
     && (Advance(w, es[0]).Handled? ==> BringsWhatIsOwed(Advance(w, es[0]).value, es[1..])))
  }

  lemma {:induction false} OwedIsAnswered(t: Torrent, w: World, past: seq<Event>, es: seq<Event>)
    requires RequestsOk(t, w, past) && AllExact(w, past) && BringsWhatIsOwed(w, es)
    ensures AnswersRequests(w, past, es)
    decreases |es|
  {
    if |es| > 0 {
      AnswersIffOwed(w, past, es[0]);
      if Advance(w, es[0]).Handled? {
        AdvanceRequests(t, w, past, es[0]);
        AdvanceExact(t, w, past, es[0]);
        OwedIsAnswered(t, Advance(w, es[0]).value, past + [es[0]], es[1..]);
      }
    }
  }

  // ---------- the announcement of all pieces ----------

  function Upward(from: nat, to: nat): (s: seq<int>)
    requires from <= to
    ensures |s| == to - from && forall j :: 0 <= j < |s| ==> s[j] == from + j
  {
    seq(to - from, j requires 0 <= j => from + j)
  }

  function FullBitfield(pieces: nat): seq<byte> {
    seq(pieces / 8 + 1, _ => 255)
  }

  lemma FullByte(j: nat)
    requires j < 8
    ensures ToBits(255) & (1 << j) != 0
  {
    assert (255 as bv8) & (1 << j) != 0;
  }

  lemma {:induction false} AllBitsListed(bits: seq<bv8>, max: int)
    requires -1 <= max < 8 * |bits| && forall i :: 0 <= i < |bits| ==> bits[i] == ToBits(255)
    ensures Indices(bits, max) == Upward(0, max + 1)
    decreases max + 1
  {
    if max >= 0 {
      AllBitsListed(bits, max - 1);
      FullByte(max % 8);
    }
  }

  lemma AllAnnounced(pieces: nat)
    requires pieces > 0
    ensures PieceIndices(FullBitfield(pieces), pieces - 1) == Ok(Upward(0, pieces))
  {
    AllBitsListed(BitsOfPayload(FullBitfield(pieces)), pieces - 1);
  }

  // ---------- the run ----------

  /** The reply that arrives when block `from` of piece `p` is due: that block, except that in place of the
      first block of piece 1 comes the answer to the second REQUEST for the first block of piece 0. */
  function ReplyDue(t: Torrent, p: nat, from: nat): Event
    requires t.Valid() && t.HasBlock(p, from)
  {
    PieceMsg(0, HonestPayload(t, if p == 1 && from == 0 then 0 else p, from))
  }

  function RepliesDue(t: Torrent, p: nat, from: nat): seq<Event>
    requires t.Valid() && t.HasBlock(p, from)
    decreases t.pieces - p, t.blocksPerPiece - from, 1
  {
    [ReplyDue(t, p, from)] + RepliesAfter(t, p, from)
  }

  function RepliesAfter(t: Torrent, p: nat, from: nat): seq<Event>
    requires t.Valid() && t.HasBlock(p, from)
    decreases t.pieces - p, t.blocksPerPiece - from, 0
  {
    if from + 1 < t.blocksPerPiece then RepliesDue(t, p, from + 1)
    else if p + 1 < t.pieces then RepliesDue(t, p + 1, 0)
    else []
  }

  /** One peer announces everything; the first REQUEST times out and is sent again; both are answered, the
      second late. */
  function LateRun(t: Torrent): seq<Event>
    requires t.Valid()
  {
    [BitfieldMsg(0, FullBitfield(t.pieces))] + ([Misfire(0, 0)] + RepliesDue(t, 0, 0))
  }

  // ---------- the states of the run ----------

  /** Of `n` requested blocks those before `from` have been counted. */
  ghost predicate CountedTo(r: Requester, n: nat, from: nat) {
    && r.total == n && r.blocksLeft == n - from
    && (forall k :: k in r.data <==> 0 <= k < n)
    && forall k :: 0 <= k < n ==> (r.data[k] == Open <==> from <= k)
  }

  ghost predicate StatusesAt(t: Torrent, table: Table, p: nat)
    requires t.Valid()
  {
    TableOk(t, table) &&
    forall i :: 0 <= i < t.pieces ==> table[i].status == if i < p then Done else if i == p then Downloading else Idle
  }

  /** The blocks of piece `p` from `from` on are owed, and the first block of piece 0 once more until its late
      answer has come. */
  ghost predicate OwedAt(owed: multiset<BlockId>, n: nat, p: nat, from: nat) {
    && (forall k :: from <= k < n ==> BlockId(p, k) in owed)
    && (p == 0 ==> owed[BlockId(0, 0)] >= if from == 0 then 2 else 1)
    && (p == 1 && from == 0 ==> BlockId(0, 0) in owed)
  }

  /** All of that but the REQUESTs: block `from` of piece `p` is next, and piece `p + 1` after it. */
  ghost predicate Reached(t: Torrent, l: Local, p: nat, from: nat)
    requires t.Valid()
  {
    && t.HasBlock(p, from) && StatusesAt(t, l.shared.table, p)
    && l.shared.finalizations == 0
    && l.conn.queue == Upward(p + 1, t.pieces)
    && l.conn.requester.Some? && CountedTo(l.conn.requester.value, t.blocksPerPiece, from)
  }

  ghost predicate Due(t: Torrent, l: Local, p: nat, from: nat)
    requires t.Valid()
  {
    Reached(t, l, p, from) && OwedAt(l.conn.owed, t.blocksPerPiece, p, from)
  }

  // ---------- the steps of the run ----------

  lemma ReceiveDue(r: Requester, n: nat, from: nat)
    requires CountedTo(r, n, from) && from < n
    ensures from + 1 < n ==> Receive(r, from).blocksLeft != 0 && CountedTo(Receive(r, from), n, from + 1)
    ensures from + 1 == n ==>
      Receive(r, from).blocksLeft == 0 && forall k :: k in Receive(r, from).data <==> 0 <= k < n
  {
  }

  lemma OwedAfter(owed: multiset<BlockId>, n: nat, p: nat, from: nat, q: nat)
    requires OwedAt(owed, n, p, from) && from < n && (q == p || (q == 0 && p == 1 && from == 0))
    ensures BlockId(q, from) in owed
    ensures OwedAt(owed - multiset{BlockId(q, from)}, n, p, from + 1)
  {
  }

  /** A reply that is not the last of its piece, whichever piece its block belongs to. */
  lemma DueMiddle(t: Torrent, l: Local, p: nat, from: nat, q: nat)
    requires t.Valid() && Due(t, l, p, from) && from + 1 < t.blocksPerPiece && t.HasBlock(q, from)
    requires q == p || (q == 0 && p == 1 && from == 0)
    ensures BlockId(q, from) in l.conn.owed
    ensures var outcome := BlockStep(l, HonestBlock(t, q, from));
      outcome.Handled? && Due(t, outcome.value, p, from + 1)
  {
    ReceiveDue(l.conn.requester.value, t.blocksPerPiece, from);
    OwedAfter(l.conn.owed, t.blocksPerPiece, p, from, q);
  }

  /** Pieces before `p` are done, the others idle and queued. */
  ghost predicate ReadyFor(t: Torrent, l: Local, p: nat)
    requires t.Valid()
  {
    && p < t.pieces && TableOk(t, l.shared.table) && l.shared.finalizations == 0
    && l.conn.queue == Upward(p, t.pieces)
    && forall i :: 0 <= i < t.pieces ==> l.shared.table[i].status == if i < p then Done else Idle
  }

  /** Piece `p` has just been reserved and all its blocks requested. */
  ghost predicate JustReached(t: Torrent, l: Local, p: nat, before: Local)
    requires t.Valid() && 0 <= p < t.pieces
  {
    && Reached(t, l, p, 0)
    && p in before.shared.table && l.conn.owed == before.conn.owed + multiset(Ids(before.shared.table[p].blocks))
    && l.conn.misfires == before.conn.misfires
    && 0 in l.conn.requester.value.waiting && l.conn.requester.value.waiting[0].Id() == BlockId(p, 0)
  }

  lemma ReserveStatuses(t: Torrent, table: Table, p: nat, peerId: string)
    requires t.Valid() && p < t.pieces && TableOk(t, table)
    requires forall i :: 0 <= i < t.pieces ==> table[i].status == if i < p then Done else Idle
    ensures StatusesAt(t, Reserve(table, p, peerId), p)
  {
    forall i | 0 <= i < t.pieces
      ensures t.UniformBlocks(i, Reserve(table, p, peerId)[i].blocks)
    {
      assert t.UniformBlocks(i, table[i].blocks);
    }
  }

  lemma OpenedFromStart(r: Requester, n: nat, r': Requester)
    requires r.total == n == r.blocksLeft && forall k :: k in r.data ==> 0 <= k < n
    requires Opened(r, Range(n), r')
    ensures CountedTo(r', n, 0)
  {
  }

  lemma ReserveReaches(t: Torrent, l: Local, p: nat, r: Requester)
    requires t.Valid() && ReadyFor(t, l, p)
    requires r.total == t.blocksPerPiece == r.blocksLeft && forall k :: k in r.data ==> 0 <= k < t.blocksPerPiece
    ensures JustReached(t, ReserveFor(l, r, p, Upward(p + 1, t.pieces)), p, l)
  {
    var blocks := l.shared.table[p].blocks;
    IdxsOfUniform(t, p, blocks);
    RequestAllOpens(r, blocks);
    FirstWaits(t, p, blocks, r);
    OpenedFromStart(r, t.blocksPerPiece, RequestAll(r, blocks));
    ReserveStatuses(t, l.shared.table, p, l.conn.peerId);
  }

  lemma ReachNext(t: Torrent, l: Local, p: nat, r: Requester)
    requires t.Valid() && ReadyFor(t, l, p)
    requires r.total == t.blocksPerPiece == r.blocksLeft && forall k :: k in r.data ==> 0 <= k < t.blocksPerPiece
    ensures RequestNext(l, r).Handled? && JustReached(t, RequestNext(l, r).value, p, l)
  {
    assert l.conn.queue[1..] == Upward(p + 1, t.pieces);
    assert NextIdle(l.shared.table, l.conn.queue) == Reserved([], p, Upward(p + 1, t.pieces));
    ReserveReaches(t, l, p, r);
  }

  lemma FirstWaits(t: Torrent, p: nat, blocks: seq<Block>, r: Requester)
    requires t.Valid() && p < t.pieces && t.UniformBlocks(p, blocks)
    ensures 0 in RequestAll(r, blocks).waiting && RequestAll(r, blocks).waiting[0].Id() == BlockId(p, 0)
  {
    IdxsOfUniform(t, p, blocks);
    RequestAllOpens(r, blocks);
    var b := RequestAll(r, blocks).waiting[0];
    var j :| 0 <= j < |blocks| && blocks[j] == b;
  }

  lemma AllOwed(t: Torrent, p: nat, blocks: seq<Block>)
    requires t.Valid() && p < t.pieces && t.UniformBlocks(p, blocks)
    ensures forall k :: 0 <= k < t.blocksPerPiece ==> BlockId(p, k) in Ids(blocks)
  {
    forall k | 0 <= k < t.blocksPerPiece
      ensures BlockId(p, k) in Ids(blocks)
    {
      assert Ids(blocks)[k] == BlockId(p, k);
    }
  }

  lemma LastLeavesReady(t: Torrent, l: Local, p: nat, from: nat)
    requires t.Valid() && Due(t, l, p, from) && from + 1 == t.blocksPerPiece
    ensures var l1 := Between(l, HonestBlock(t, p, from));
      if p + 1 < t.pieces then ReadyFor(t, l1, p + 1) && |Undone(l1.shared.table)| != 0
      else |Undone(l1.shared.table)| == 0
  {
    FinishKeepsTable(t, l.shared.table, p);
    FinishStatuses(t, l.shared.table, p);
  }

  lemma FinishStatuses(t: Torrent, table: Table, p: nat)
    requires t.Valid() && p < t.pieces && StatusesAt(t, table, p)
    ensures |Undone(Finish(table, p))| == 0 <==> p + 1 == t.pieces
    ensures forall i :: 0 <= i < t.pieces ==> Finish(table, p)[i].status == if i < p + 1 then Done else Idle
  {
    UndoneEmpty(Finish(table, p));
    if p + 1 < t.pieces {
      var next := p + 1;
      assert next in table && Finish(table, p)[next].status != Done;
    }
  }

  /** The last reply of a piece reaches the next piece, or finalises the download. */
  lemma DueLast(t: Torrent, l: Local, p: nat, from: nat)
    requires t.Valid() && t.blocksPerPiece >= 2 && Due(t, l, p, from) && from + 1 == t.blocksPerPiece
    ensures BlockId(p, from) in l.conn.owed
    ensures var outcome := BlockStep(l, HonestBlock(t, p, from));
      outcome.Handled? && if p + 1 < t.pieces then Due(t, outcome.value, p + 1, 0)
                          else outcome.value.shared.finalizations == 1
  {
    ReceiveDue(l.conn.requester.value, t.blocksPerPiece, from);
    LastLeavesReady(t, l, p, from);
    LastStep(l, HonestBlock(t, p, from));
    if p + 1 < t.pieces {
      DueAfter(t, l, p, from);
    }
  }

  lemma DueAfter(t: Torrent, l: Local, p: nat, from: nat)
    requires t.Valid() && t.blocksPerPiece >= 2 && Due(t, l, p, from) && from + 1 == t.blocksPerPiece
    requires p + 1 < t.pieces && ReadyFor(t, Between(l, HonestBlock(t, p, from)), p + 1)
    ensures var outcome := RequestNext(Between(l, HonestBlock(t, p, from)),
                                       Receive(l.conn.requester.value, from).(blocksLeft := t.blocksPerPiece));
      outcome.Handled? && Due(t, outcome.value, p + 1, 0)
  {
    var l1, r := Between(l, HonestBlock(t, p, from)), Receive(l.conn.requester.value, from);
    ReceiveDue(l.conn.requester.value, t.blocksPerPiece, from);
    NextOwed(t, l.conn.owed, p, from, l1.shared.table[p + 1].blocks);
    DueNext(t, l1, p + 1, r.(blocksLeft := t.blocksPerPiece));
  }

  lemma DueNext(t: Torrent, l: Local, p: nat, r: Requester)
    requires t.Valid() && ReadyFor(t, l, p)
    requires r.total == t.blocksPerPiece == r.blocksLeft && forall k :: k in r.data ==> 0 <= k < t.blocksPerPiece
    requires OwedAt(l.conn.owed + multiset(Ids(l.shared.table[p].blocks)), t.blocksPerPiece, p, 0)
    ensures RequestNext(l, r).Handled? && Due(t, RequestNext(l, r).value, p, 0)
  {
    ReachNext(t, l, p, r);
  }

  lemma NextOwed(t: Torrent, owed: multiset<BlockId>, p: nat, from: nat, blocks: seq<Block>)
    requires t.Valid() && t.blocksPerPiece >= 2 && from + 1 == t.blocksPerPiece
    requires OwedAt(owed, t.blocksPerPiece, p, from)
    requires p + 1 < t.pieces && t.UniformBlocks(p + 1, blocks)
    ensures OwedAt(owed - multiset{BlockId(p, from)} + multiset(Ids(blocks)), t.blocksPerPiece, p + 1, 0)
  {
    AllOwed(t, p + 1, blocks);
    var next := p + 1;
    forall k | 0 <= k < t.blocksPerPiece
      ensures BlockId(next, k) in owed - multiset{BlockId(p, from)} + multiset(Ids(blocks))
    {
      assert BlockId(next, k) in Ids(blocks);
    }
  }

  // ---------- the run as a whole ----------

  /** One connection; block `from` of piece `p` is due on it. */
  ghost predicate WorldDue(t: Torrent, w: World, p: nat, from: nat)
    requires t.Valid()
  {
    |w.conns| == 1 && Due(t, At(w, 0), p, from)
  }

  /** What is due after block `from` of piece `p`. */
  ghost predicate NextDue(t: Torrent, w: World, p: nat, from: nat)
    requires t.Valid()
  {
    if from + 1 < t.blocksPerPiece then WorldDue(t, w, p, from + 1)
    else if p + 1 < t.pieces then WorldDue(t, w, p + 1, 0)
    else w.shared.finalizations == 1
  }

  lemma ReplyDueStep(t: Torrent, w: World, p: nat, from: nat)
    requires t.Valid() && t.blocksPerPiece >= 2 && WorldDue(t, w, p, from)
    ensures HonestContent(t, ReplyDue(t, p, from))
    ensures forall id :: id in ReplyIn(ReplyDue(t, p, from)) ==> id in w.conns[0].owed
    ensures Advance(w, ReplyDue(t, p, from)).Handled?
    ensures NextDue(t, Advance(w, ReplyDue(t, p, from)).value, p, from)
  {
    var q := if p == 1 && from == 0 then 0 else p;
    ReplyIsUnderstood(t, q, from);
    assert ReplyDue(t, p, from).payload == HonestPayload(t, q, from);
    AdvanceIsLocal(w, ReplyDue(t, p, from));
    if from + 1 < t.blocksPerPiece {
      DueMiddle(t, At(w, 0), p, from, q);
    } else {
      DueLast(t, At(w, 0), p, from);
    }
  }

  /** The run is handled and honest, every reply brings what is owed, and the download is finalised. */
  ghost predicate FinishesIn(t: Torrent, w: World, es: seq<Event>, w': World)
    requires t.Valid()
  {
    HonestRun(t, w, es) && BringsWhatIsOwed(w, es) && Run(w, es) == Handled(w') && w'.shared.finalizations == 1
  }

  ghost predicate Finishes(t: Torrent, w: World, es: seq<Event>)
    requires t.Valid()
  {
    exists w' :: FinishesIn(t, w, es, w')
  }

  lemma FinishesCons(t: Torrent, w: World, e: Event, es: seq<Event>)
    requires t.Valid() && e.conn < |w.conns| && HonestContent(t, e) && WellTimed(At(w, e.conn), e)
    requires forall id :: id in ReplyIn(e) ==> id in w.conns[e.conn].owed
    requires Advance(w, e).Handled? && Finishes(t, Advance(w, e).value, es)
    ensures Finishes(t, w, [e] + es)
  {
    assert ([e] + es)[1..] == es;
    var w' :| FinishesIn(t, Advance(w, e).value, es, w');
    assert FinishesIn(t, w, [e] + es, w');
  }

  lemma ReplyDueFinishes(t: Torrent, w: World, p: nat, from: nat, rest: seq<Event>)
    requires t.Valid() && t.blocksPerPiece >= 2 && WorldDue(t, w, p, from)
    requires Advance(w, ReplyDue(t, p, from)).Handled? && Finishes(t, Advance(w, ReplyDue(t, p, from)).value, rest)
    ensures Finishes(t, w, [ReplyDue(t, p, from)] + rest)
  {
    ReplyDueStep(t, w, p, from);
    FinishesCons(t, w, ReplyDue(t, p, from), rest);
  }

  lemma {:induction false} RepliesDueFinish(t: Torrent, w: World, p: nat, from: nat, es: seq<Event>)
    requires t.Valid() && t.blocksPerPiece >= 2 && WorldDue(t, w, p, from) && es == RepliesDue(t, p, from)
    ensures Finishes(t, w, es)
    decreases t.pieces - p, t.blocksPerPiece - from, 1
  {
    var rest := RepliesAfter(t, p, from);
    ReplyDueStep(t, w, p, from);
    RepliesAfterFinish(t, Advance(w, ReplyDue(t, p, from)).value, p, from, rest);
    ReplyDueFinishes(t, w, p, from, rest);
  }

  lemma {:induction false} RepliesAfterFinish(t: Torrent, w: World, p: nat, from: nat, rest: seq<Event>)
    requires t.Valid() && t.blocksPerPiece >= 2 && t.HasBlock(p, from) && NextDue(t, w, p, from)
    requires rest == RepliesAfter(t, p, from)
    ensures Finishes(t, w, rest)
    decreases t.pieces - p, t.blocksPerPiece - from, 0
  {
    if from + 1 < t.blocksPerPiece {
      RepliesDueFinish(t, w, p, from + 1, rest);
    } else if p + 1 < t.pieces {
      RepliesDueFinish(t, w, p + 1, 0, rest);
    } else {
      assert FinishesIn(t, w, rest, w);
    }
  }

  lemma MergeAll(pieces: nat)
    ensures UniqueMerge([], Upward(0, pieces)) == Upward(0, pieces)
  {
    MergeOfUnique(Upward(0, pieces));
  }

  lemma EnqueueAll(t: Torrent, l: Local, news: seq<int>)
    requires t.Valid() && ReadyFor(t, l.(conn := l.conn.(queue := Upward(0, t.pieces))), 0) && l.conn.queue == []
    ensures var outcome := Enqueue(l, Upward(0, t.pieces), news);
      outcome.Handled? && JustReached(t, outcome.value, 0, l)
  {
    var l1 := l.(conn := l.conn.(queue := Upward(0, t.pieces), announced := l.conn.announced + news));
    assert t.UniformBlocks(0, l.shared.table[0].blocks);
    ReachNext(t, l1, 0, NewRequester(t.blocksPerPiece));
  }

  /** Announcing all pieces to a new connection. */
  lemma AnnounceAll(t: Torrent, l: Local)
    requires t.Valid() && ReadyFor(t, l.(conn := l.conn.(queue := Upward(0, t.pieces))), 0) && l.conn.queue == []
    ensures var outcome := BitfieldStep(l, FullBitfield(t.pieces));
      outcome.Handled? && JustReached(t, outcome.value, 0, l)
  {
    AllAnnounced(t.pieces);
    LargestIndex(t, l.shared.table);
    MergeAll(t.pieces);
    EnqueueAll(t, l, Newcomers([], Upward(0, t.pieces)));
  }

  lemma FirstTimeOut(t: Torrent, l: Local, before: Local)
    requires t.Valid() && JustReached(t, l, 0, before) && l.conn.misfires == 0
    requires t.UniformBlocks(0, before.shared.table[0].blocks)
    ensures MisfireStep(l, 0).Handled? && Due(t, MisfireStep(l, 0).value, 0, 0)
  {
    AllOwed(t, 0, before.shared.table[0].blocks);
    var b := l.conn.requester.value.waiting[0];
    assert Ids([b]) == [b.Id()];
  }

  lemma StartIsReady(t: Torrent, peerId: string)
    requires t.Valid()
    ensures var l := At(Start(t, [peerId]), 0);
      ReadyFor(t, l.(conn := l.conn.(queue := Upward(0, t.pieces))), 0) && l.conn == NewConn(peerId)
      && t.UniformBlocks(0, l.shared.table[0].blocks)
  {
    StartIsInitial(t, [peerId]);
  }

  lemma LateRunFinishes(t: Torrent, peerId: string)
    requires t.Valid() && t.blocksPerPiece >= 2
    ensures Finishes(t, Start(t, [peerId]), LateRun(t))
  {
    var w0, announcement, timeOut := Start(t, [peerId]), BitfieldMsg(0, FullBitfield(t.pieces)), Misfire(0, 0);
    StartIsReady(t, peerId);
    AnnounceAll(t, At(w0, 0));
    AdvanceIsLocal(w0, announcement);
    var w1 := Advance(w0, announcement).value;
    FirstTimeOut(t, At(w1, 0), At(w0, 0));
    AdvanceIsLocal(w1, timeOut);
    var replies := RepliesDue(t, 0, 0);
    RepliesDueFinish(t, Advance(w1, timeOut).value, 0, 0, replies);
    FinishesCons(t, w1, timeOut, replies);
    FinishesCons(t, w0, announcement, [timeOut] + replies);
  }

  lemma RepliesInCons(e: Event, es: seq<Event>)
    ensures RepliesIn([e] + es) == ReplyIn(e) + RepliesIn(es)
  {
    assert ([e] + es)[1..] == es;
  }

  lemma ReplyDueBrings(t: Torrent, p: nat, from: nat)
    requires t.Valid() && t.HasBlock(p, from)
    ensures ReplyIn(ReplyDue(t, p, from)) == [BlockId(if p == 1 && from == 0 then 0 else p, from)]
  {
    ReplyIsUnderstood(t, if p == 1 && from == 0 then 0 else p, from);
  }

  lemma {:induction false} LateAnswerComes(t: Torrent, p: nat, from: nat)
    requires t.Valid() && t.pieces >= 2 && t.HasBlock(p, from) && ((p == 0 && from > 0) || (p == 1 && from == 0))
    ensures BlockId(0, 0) in RepliesIn(RepliesDue(t, p, from))
    decreases t.pieces - p, t.blocksPerPiece - from
  {
    ReplyDueBrings(t, p, from);
    RepliesInCons(ReplyDue(t, p, from), RepliesAfter(t, p, from));
    if p == 0 {
      if from + 1 < t.blocksPerPiece {
        LateAnswerComes(t, 0, from + 1);
      } else {
        LateAnswerComes(t, 1, 0);
      }
    }
  }

  lemma NoReply(e: Event, es: seq<Event>)
    requires !e.PieceMsg?
    ensures RepliesIn([e] + es) == RepliesIn(es)
  {
    RepliesInCons(e, es);
    assert [] + RepliesIn(es) == RepliesIn(es);
  }

  lemma FirstBlockComesTwice(t: Torrent)
    requires t.Valid() && t.pieces >= 2 && t.blocksPerPiece >= 2
    ensures !NoDuplicates(RepliesIn(LateRun(t)))
  {
    var replies, rest := RepliesDue(t, 0, 0), RepliesAfter(t, 0, 0);
    NoReply(BitfieldMsg(0, FullBitfield(t.pieces)), [Misfire(0, 0)] + replies);
    NoReply(Misfire(0, 0), replies);
    RepliesInCons(ReplyDue(t, 0, 0), rest);
    ReplyDueBrings(t, 0, 0);
    LateAnswerComes(t, 0, 1);
    HeadAgain(BlockId(0, 0), RepliesIn(rest));
  }

  lemma HeadAgain(id: BlockId, ids: seq<BlockId>)
    requires id in ids
    ensures !NoDuplicates([id] + ids)
  {
    var j :| 0 <= j < |ids| && ids[j] == id;
    assert ([id] + ids)[0] == ([id] + ids)[j + 1];
  }

  /** A torrent of at least two pieces of at least two blocks: there is a run in which a single peer answers
      every REQUEST, each with the block asked for and none more often than it was sent, and the client
      finalises and seeds a file that is too short.  The first REQUEST times out and is sent again, the
      second answer to it comes after piece 0 is done, and is counted for the block of piece 1 with the same
      index. */
  lemma LateAnswerTruncates(t: Torrent, peerId: string)
    requires t.Valid() && t.pieces >= 2 && t.blocksPerPiece >= 2
    ensures AnswersRequests(Start(t, [peerId]), [], LateRun(t)) && HonestRun(t, Start(t, [peerId]), LateRun(t))
    ensures Run(Start(t, [peerId]), LateRun(t)).Handled?
    ensures var s := Run(Start(t, [peerId]), LateRun(t)).value.shared;
      && s.finalizations == 1 && s.files.isSeeding
      && s.files.finalFile.Some? && |s.files.finalFile.value| < |t.content|
  {
    var w0 := Start(t, [peerId]);
    LateRunFinishes(t, peerId);
    StartIsInitial(t, [peerId]);
    InitialRequests(t, w0);
    OwedIsAnswered(t, w0, [], LateRun(t));
    FinishedFileIff(t, w0, LateRun(t), Run(w0, LateRun(t)).value);
    FirstBlockComesTwice(t);
    DistinctCount(RepliesIn(LateRun(t)));
    MulAssociative(t.pieces, t.blocksPerPiece, t.blockLength);
    MulStrict(|Elements(RepliesIn(LateRun(t)))|, |RepliesIn(LateRun(t))|, t.blockLength);
  }
}
