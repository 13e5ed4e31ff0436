/** A torrent of three blocks, two to a piece: its second piece is never finished. */
module ProtocolShortPiece {
  import opened Wrappers
  import opened Bytes
  import opened SliceUtil
  import opened Cardinality
  import opened Arithmetic
  import opened Pieces
  import opened Layouts
  import opened Bitfields
  import opened Serving
  import opened PeerMessages
  import opened BitfieldMessages
  import opened FileInfos
  import opened Protocol
  import opened ProtocolInvariant
  import opened ProtocolSteps
  import opened ProtocolAccounts
  import opened ProtocolRuns
  import opened ProtocolBlockCounts

  // ---------- a connection that waits for nothing ----------

  /** The only connection: nothing is queued, no channel is open, every piece is taken, and piece `i` is still
      being downloaded. */
  ghost predicate Starved(w: World, i: int) {
    && |w.conns| == 1 && |w.conns[0].queue| == 0 && OpenCount(w.conns[0]) == 0 && Waiting(w.conns[0]) == {}
    && i in w.shared.table && w.shared.table[i].status == Downloading
    && forall j :: j in w.shared.table ==> w.shared.table[j].status != Idle
  }

  lemma StarvedAnnouncement(l: Local, queue: seq<int>, news: seq<int>)
    requires |l.conn.queue| == 0 && |queue| > 0 && Enqueue(l, queue, news).Handled?
    requires forall j :: j in l.shared.table ==> l.shared.table[j].status != Idle
    ensures var l' := Enqueue(l, queue, news).value;
      l'.shared == l.shared && |l'.conn.queue| == 0 && OpenCount(l'.conn) == 0 && Waiting(l'.conn) == {}
  {
    NextIdleLaws(l.shared.table, queue);
    assert OpenBlocks(NewRequester(l.shared.table[queue[0]].BlockCount())) == {};
  }

  lemma StarvedReply(l: Local, payload: seq<byte>)
    requires OpenCount(l.conn) == 0
    ensures !PieceStep(l, payload).Handled?
  {
    if PieceStep(l, payload).Handled? {
      MissingIsOpen(l.conn, ReceivedBlock(payload).value.idx);
    }
  }

  lemma StarvedStep(w: World, e: Event, i: int)
    requires Starved(w, i) && Advance(w, e).Handled?
    ensures Starved(Advance(w, e).value, i) && Advance(w, e).value.shared == w.shared
  {
    if e.conn == 0 {
      var l := At(w, 0);
      AdvanceIsLocal(w, e);
      match e
      case HaveMsg(_, payload) =>
        if LocalStep(l, e).Handled? {
          StarvedAnnouncement(l, l.conn.queue + [Uint32(payload)], [Uint32(payload)]);
        }
      case BitfieldMsg(_, payload) =>
        if LocalStep(l, e).Handled? {
          StarvedBitfield(l, payload);
        }
      case PieceMsg(_, payload) => StarvedReply(l, payload);
      case Misfire(_, _) =>
    }
  }

  lemma StarvedBitfield(l: Local, payload: seq<byte>)
    requires |l.conn.queue| == 0 && OpenCount(l.conn) == 0 && Waiting(l.conn) == {} && BitfieldStep(l, payload).Handled?
    requires forall j :: j in l.shared.table ==> l.shared.table[j].status != Idle
    ensures var l' := BitfieldStep(l, payload).value;
      l'.shared == l.shared && |l'.conn.queue| == 0 && OpenCount(l'.conn) == 0 && Waiting(l'.conn) == {}
  {
    var indices := PieceIndices(payload, MaxIdx(l.shared.table.Keys)).value;
    if |indices| > 0 {
      MergedNotEmpty(l.conn.queue, indices);
      StarvedAnnouncement(l, UniqueMerge(l.conn.queue, indices), Newcomers(l.conn.queue, indices));
    }
  }

  /** Whatever is delivered to such a client, as long as it runs, the piece is not finished. */
  lemma {:induction false} StarvedForGood(w: World, es: seq<Event>, i: int)
    requires Starved(w, i) && Run(w, es).Handled?
    ensures Starved(Run(w, es).value, i) && Run(w, es).value.shared == w.shared
    decreases |es|
  {
    if |es| > 0 {
      StarvedStep(w, es[0], i);
      StarvedForGood(Advance(w, es[0]).value, es[1..], i);
    }
  }

  // ---------- the run ----------

  function ShortTable(b: nat): Table
    requires b > 0
  {
    NewTable(2, 2 * b, b, 3 * b, false)
  }

  lemma EqualBlocks(i: int, m: nat, b: nat)
    requires b > 0 && m > 0
    ensures m * b > 0
    ensures var blocks := PieceBlocks(i, m * b, b);
      |blocks| == m && forall k :: 0 <= k < m ==> blocks[k].Id() == BlockId(i, k)
  {
    MulMonotone(1, m, b);
    QuotientUnique(m, 0, b);
  }

  lemma ShortShape(b: nat)
    requires b > 0
    ensures var t := ShortTable(b);
      && t.Keys == {0, 1} && WellNumbered(t) && |t[0].blocks| == 2 && |t[1].blocks| == 1
      && t[0].status == Idle && t[1].status == Idle
  {
    EqualBlocks(0, 2, b);
    EqualBlocks(1, 1, b);
    QuotientUnique(1, b, 2 * b);
    assert ShortTable(b)[0].blocks == PieceBlocks(0, 2 * b, b);
    assert ShortTable(b)[1].blocks == PieceBlocks(1, 1 * b, b);
  }

  function ShortStart(b: nat, peerId: string): World
    requires b > 0
  {
    World(Shared(ShortTable(b), Files(map[], None, false), [], [], 0), [NewConn(peerId)])
  }

  /** Block `k` of piece `p` as the seeder sends it. */
  function ShortBlock(b: nat, content: seq<byte>, p: nat, k: nat): Block
    requires |content| == 3 * b && 2 * p + k < 3
  {
    var start := (2 * p + k) * b;
    MulMonotone(0, 2 * p + k, b);
    MulStrictOrZero(2 * p + k, b);
    Block(k, p, k * b, content[start..start + b], b, false)
  }

  lemma MulStrictOrZero(m: nat, b: nat)
    requires m < 3
    ensures 0 <= m * b && m * b + b <= 3 * b
  {
  }

  function ShortReply(b: nat, content: seq<byte>, p: nat, k: nat): Event
    requires |content| == 3 * b && 2 * p + k < 3
  {
    PieceMsg(0, BuildPeerPieceMsg(ShortBlock(b, content, p, k)).payload)
  }

  /** Both pieces are announced, and each of the three blocks arrives once. */
  function ShortRun(b: nat, content: seq<byte>): seq<Event>
    requires |content| == 3 * b
  {
    [BitfieldMsg(0, [3])] + ([ShortReply(b, content, 0, 0)] +
                             ([ShortReply(b, content, 0, 1)] + ([ShortReply(b, content, 1, 0)] + [])))
  }

  lemma BothAnnounced()
    ensures PieceIndices([3], 1) == Ok([0, 1])
    ensures UniqueMerge([], [0, 1]) == [0, 1] == Newcomers([], [0, 1])
  {
    var bits := BitsOfPayload([3]);
    assert (3 as bv8) & (1 << 0) != 0 && (3 as bv8) & (1 << 1) != 0;
    assert bits[0] == 3 as bv8;
    assert HasBit(bits, 0) && HasBit(bits, 1);
    assert Indices(bits, 0) == [0];
    MergeOfUnique([0, 1]);
  }

  /** One connection that has reserved the piece at position `j` of the queue of both pieces. */
  ghost predicate ShortMid(w: World, j: nat, got: set<int>) {
    |w.conns| == 1 && w.shared.table.Keys == {0, 1} && w.shared.finalizations == 0
    && Mid(At(w, 0), [0, 1], 2, j, got) && Count(At(w, 0), 0) == 2 && Count(At(w, 0), 1) == 1
  }

  lemma ShortIsReady(b: nat, peerId: string)
    requires b > 0
    ensures var l := At(ShortStart(b, peerId), 0);
      && AboutTo(l.(conn := l.conn.(queue := [0, 1])), [0, 1], 0) && Count(l, 0) == 2 && Count(l, 1) == 1
      && l.shared.table.Keys == {0, 1} && MaxIdx(l.shared.table.Keys) == 1
  {
    var l := At(ShortStart(b, peerId), 0);
    ShortShape(b);
    assert [0, 1][0..] == [0, 1];
    assert forall i, k :: !SavedBlock(l.(conn := l.conn.(queue := [0, 1])), i, k);
  }

  lemma ShortBitfield(l: Local)
    requires |l.conn.queue| == 0 && MaxIdx(l.shared.table.Keys) == 1
    ensures BitfieldStep(l, [3]) == Enqueue(l, [0, 1], [0, 1])
  {
    BothAnnounced();
    assert l.conn.queue == [];
  }

  lemma ShortAnnounced(b: nat, peerId: string)
    requires b > 0
    ensures var e := BitfieldMsg(0, [3]);
      Advance(ShortStart(b, peerId), e).Handled? && ShortMid(Advance(ShortStart(b, peerId), e).value, 0, {})
  {
    var w := ShortStart(b, peerId);
    ShortIsReady(b, peerId);
    ShortBitfield(At(w, 0));
    var l1 := AnnouncedQueue(At(w, 0), [0, 1]);
    AdvanceIsLocal(w, BitfieldMsg(0, [3]));
    assert At(Replace(w, 0, l1), 0) == l1;
  }

  lemma ShortReplyStep(b: nat, content: seq<byte>, p: nat, k: nat, w: World)
    requires |content| == 3 * b && 2 * p + k < 3 && 0 < b && 2 * b < TWO_TO_32 && |w.conns| == 1
    requires BlockStep(At(w, 0), ShortBlock(b, content, p, k)).Handled?
    ensures Advance(w, ShortReply(b, content, p, k))
         == Handled(Replace(w, 0, BlockStep(At(w, 0), ShortBlock(b, content, p, k)).value))
  {
    PieceIsUnderstood(ShortBlock(b, content, p, k));
    AdvanceIsLocal(w, ShortReply(b, content, p, k));
  }

  lemma FinalizesWhenDone(l: Local, b: Block)
    requires BlockStep(l, b).Handled?
    ensures var s := BlockStep(l, b).value.shared;
      s.table.Keys == l.shared.table.Keys && (s.finalizations == l.shared.finalizations || AllDone(s.table))
  {
    if Receive(l.conn.requester.value, b.idx).blocksLeft == 0 {
      LastStep(l, b);
      UndoneEmpty(Between(l, b).shared.table);
      NextIdleLaws(Between(l, b).shared.table, Between(l, b).conn.queue);
    }
  }

  lemma ShortIsAwaited(w: World, j: nat, got: set<int>, k: nat)
    requires ShortMid(w, j, got) && j < 2 && k < 2 - j && k !in got
    ensures Missing(w.conns[0], k)
  {
    var l := At(w, 0);
    assert [0, 1][j] == j && Count(l, j) == 2 - j;
    assert k in Range(2 - j) - got;
  }

  /** The first block of either piece is counted, but not as the last. */
  lemma ShortFirst(b: nat, content: seq<byte>, w: World, j: nat)
    requires |content| == 3 * b && 0 < b && 2 * b < TWO_TO_32 && j < 2 && ShortMid(w, j, {})
    ensures var e := ShortReply(b, content, j, 0);
      Advance(w, e).Handled? && ShortMid(Advance(w, e).value, j, {0})
  {
    var l, blk := At(w, 0), ShortBlock(b, content, j, 0);
    ShortIsAwaited(w, j, {}, 0);
    MidStep(l, [0, 1], 2, j, {}, blk);
    assert {} + {0 as int} == {0};
    StepKeepsCounts(l, blk);
    MiddleBlockStep(l, blk);
    ShortReplyStep(b, content, j, 0, w);
  }

  /** The second block of the first piece finishes it, and the second piece is reserved. */
  lemma ShortSecond(b: nat, content: seq<byte>, w: World)
    requires |content| == 3 * b && 0 < b && 2 * b < TWO_TO_32 && ShortMid(w, 0, {0})
    ensures var e := ShortReply(b, content, 0, 1);
      Advance(w, e).Handled? && ShortMid(Advance(w, e).value, 1, {})
  {
    var l, blk := At(w, 0), ShortBlock(b, content, 0, 1);
    ShortIsAwaited(w, 0, {0}, 1);
    MidLast(l, [0, 1], 2, 0, {0}, blk);
    StepKeepsCounts(l, blk);
    FinalizesWhenDone(l, blk);
    ShortReplyStep(b, content, 0, 1, w);
    var table := BlockStep(l, blk).value.shared.table;
    assert table[[0, 1][1]].status == Downloading && 1 in table;
  }

  lemma ShortIsStarved(w: World)
    requires ShortMid(w, 1, {0})
    ensures Starved(w, 1) && w.shared.table[0].status == Done
    ensures forall id :: id in [BlockId(0, 0), BlockId(0, 1), BlockId(1, 0)] ==> id in w.shared.saved
  {
    var l, queue := At(w, 0), [0, 1];
    assert queue[0] == 0 && queue[1] == 1;
    assert Range(1) - {0} == {};
    assert SavedExactly(l, queue[1], {0}) && Complete(l, queue[0]);
    assert SavedBlock(l, 1, 0) && SavedBlock(l, 0, 0) && SavedBlock(l, 0, 1);
    assert l.shared.table[queue[0]].status == Done && l.shared.table[queue[1]].status == Downloading;
  }

  /** Three blocks of any length, two to a piece.  The peer announces both pieces and sends each block once,
      and all three are saved; yet the second piece is still being downloaded, nothing is waited for, and
      whatever else the peer sends, the client never finalises the download: the requester was made for two
      blocks and goes on waiting for a second block of a piece that has only one. */
  lemma ShortLastPieceStarves(b: nat, content: seq<byte>, peerId: string, es: seq<Event>)
    requires 0 < b && 2 * b < TWO_TO_32 && |content| == 3 * b
    ensures Run(ShortStart(b, peerId), ShortRun(b, content)).Handled?
    ensures var w := Run(ShortStart(b, peerId), ShortRun(b, content)).value;
      && (forall id :: id in [BlockId(0, 0), BlockId(0, 1), BlockId(1, 0)] ==> id in w.shared.saved)
      && Starved(w, 1) && w.shared.finalizations == 0
      && (Run(w, es).Handled? ==> Run(w, es).value.shared == w.shared)
  {
    var w0 := ShortStart(b, peerId);
    var e0, e1 := BitfieldMsg(0, [3]), ShortReply(b, content, 0, 0);
    var e2, e3 := ShortReply(b, content, 0, 1), ShortReply(b, content, 1, 0);
    ShortAnnounced(b, peerId);
    var w1 := Advance(w0, e0).value;
    ShortFirst(b, content, w1, 0);
    var w2 := Advance(w1, e1).value;
    ShortSecond(b, content, w2);
    var w3 := Advance(w2, e2).value;
    ShortFirst(b, content, w3, 1);
    var w4 := Advance(w3, e3).value;
    ShortIsStarved(w4);
    RunOne(w3, e3, []);
    RunOne(w2, e2, [e3] + []);
    RunOne(w1, e1, [e2] + ([e3] + []));
    RunOne(w0, e0, [e1] + ([e2] + ([e3] + [])));
    if Run(w4, es).Handled? {
      StarvedForGood(w4, es, 1);
    }
  }
}
