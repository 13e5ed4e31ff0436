/** What requesting the next piece and hearing an announcement do, in terms of the state before and the
    message alone. */
module ProtocolOutcomes {
  import opened Wrappers
  import opened Bytes
  import opened SliceUtil
  import opened Pieces
  import opened Bitfields
  import opened PeerMessageBytes
  import opened BitfieldMessages
  import opened BlockNames
  import opened FileInfos
  import opened Protocol
  import opened ProtocolInvariant
  import opened ProtocolSteps

  // ---------- requesting the next piece ----------

  predicate Taken(table: Table, i: int) {
    i in table && table[i].status != Idle
  }

  /** Position `m` is the first in the queue whose piece is not taken. */
  ghost predicate StopsAt(table: Table, queue: seq<int>, m: nat) {
    m <= |queue| && (forall j :: 0 <= j < m ==> Taken(table, queue[j])) && (m < |queue| ==> !Taken(table, queue[m]))
  }

  lemma {:induction false} SomeStop(table: Table, queue: seq<int>) returns (m: nat)
    ensures StopsAt(table, queue, m)
    decreases |queue|
  {
    if |queue| == 0 || !Taken(table, queue[0]) {
      m := 0;
    } else {
      m := SomeStop(table, queue[1..]);
      m := m + 1;
      assert forall j :: 1 <= j < |queue| ==> queue[j] == queue[1..][j - 1];
    }
  }

  lemma {:induction false} NextIdleStops(table: Table, queue: seq<int>, m: nat)
    requires StopsAt(table, queue, m)
    ensures NextIdle(table, queue)
         == if m == |queue| then Exhausted
            else if queue[m] in table then Reserved(queue[..m], queue[m], queue[m + 1..])
            else Unknown(queue[m])
    decreases |queue|
  {
    if m > 0 {
      assert Taken(table, queue[0]);
      assert forall j :: 0 <= j < |queue[1..]| ==> queue[1..][j] == queue[j + 1];
      NextIdleStops(table, queue[1..], m - 1);
      assert queue[..m] == [queue[0]] + queue[1..][..m - 1];
      if m < |queue| {
        assert queue[m + 1..] == queue[1..][m..];
      }
    }
  }

  /** Piece `i` has been reserved for the connection: it is being downloaded by its peer, and nothing else in
      the shared state has changed. */
  ghost predicate ReservedHere(l: Local, l': Local, i: int) {
    && i in l.shared.table && l'.shared.table.Keys == l.shared.table.Keys
    && l'.shared.table[i] == l.shared.table[i].(status := Downloading, downloader := l.conn.peerId)
    && (forall j :: j in l.shared.table && j != i ==> l'.shared.table[j] == l.shared.table[j])
    && l'.shared == l.shared.(table := l'.shared.table, reservations := l.shared.reservations + [i])
  }

  /** What differs on the connection, apart from its queue, is what comes of requesting piece `i`. */
  ghost predicate RequestedHere(l: Local, r: Requester, l': Local, i: int) {
    && i in l.shared.table && l'.conn.requester.Some?
    && Opened(r, BlockIdxs(l.shared.table[i].blocks), l'.conn.requester.value)
    && l'.conn.inFlight == l.conn.inFlight + {i}
    && l'.conn == l.conn.(queue := l'.conn.queue, requester := l'.conn.requester, sent := l'.conn.sent,
                          inFlight := l'.conn.inFlight, owed := l'.conn.owed)
  }

  /** The connection goes on with requester `r`, having gone through its queue up to position `m`. */
  ghost predicate GoesOn(l: Local, r: Requester, m: nat, outcome: Outcome<Local>)
    requires m <= |l.conn.queue|
  {
    if m == |l.conn.queue| then outcome == Handled(l.(conn := l.conn.(queue := [], requester := Some(r))))
    else if l.conn.queue[m] !in l.shared.table then outcome == Crashed
    else outcome.Handled? && outcome.value.conn.queue == l.conn.queue[m + 1..]
         && ReservedHere(l, outcome.value, l.conn.queue[m]) && RequestedHere(l, r, outcome.value, l.conn.queue[m])
  }

  /** The outcome of `RequestNextPiece`.  The pieces already taken at the front of the queue are dropped.  The
      first that is not is reserved and requested, and dropped too; if it is unknown the client crashes.  If
      all are taken nothing is left in the queue and nothing else happens. */
  lemma RequestNextOutcome(l: Local, r: Requester, m: nat)
    requires StopsAt(l.shared.table, l.conn.queue, m)
    ensures GoesOn(l, r, m, RequestNext(l, r))
  {
    NextIdleStops(l.shared.table, l.conn.queue, m);
    if m < |l.conn.queue| && l.conn.queue[m] in l.shared.table {
      RequestAllOpens(r, l.shared.table[l.conn.queue[m]].blocks);
    }
  }

  // ---------- announcements ----------

  /** The message names piece `i`: a HAVE by the number it carries, a BITFIELD by the bit of that number, if it
      has as many bits as the table has pieces. */
  ghost predicate Names(e: Event, max: int, i: int) {
    match e
    case HaveMsg(_, payload) => NumberAt(payload, 0, i)
    case BitfieldMsg(_, payload) => 0 <= i <= max < 8 * |payload| && PayloadBit(payload, i)
    case _ => false
  }

  /** The pieces that the message names and that are not yet queued, in ascending order. */
  ghost predicate NewPieces(l: Local, e: Event, news: seq<int>) {
    Ascending(news) && forall i :: i in news <==> Names(e, MaxIdx(l.shared.table.Keys), i) && i !in l.conn.queue
  }

  /** The history and the queue of the connection fit: the queue is the end of what has been put into it. */
  ghost predicate QueueHistory(c: Conn) {
    NoDuplicates(c.queue) && EndsWith(c.announced, c.queue)
  }

  lemma LastIsLargest(a: seq<int>)
    requires Ascending(a) && |a| > 0
    ensures var front, last := a[..|a| - 1], a[|a| - 1];
      Ascending(front) && last in a && forall x :: x in a <==> x in front || x == last
    ensures forall x :: x in a ==> x <= a[|a| - 1]
    ensures a[|a| - 1] !in a[..|a| - 1]
  {
    assert a == a[..|a| - 1] + [a[|a| - 1]];
  }

  lemma {:induction false} AscendingIsUnique(a: seq<int>, b: seq<int>)
    requires Ascending(a) && Ascending(b) && forall x :: x in a <==> x in b
    ensures a == b
    decreases |a|
  {
    if |a| > 0 {
      assert a[0] in a;
      LastIsLargest(a);
      LastIsLargest(b);
      AscendingIsUnique(a[..|a| - 1], b[..|b| - 1]);
      assert a == a[..|a| - 1] + [a[|a| - 1]] && b == b[..|b| - 1] + [b[|b| - 1]];
    } else if |b| > 0 {
      LastIsLargest(b);
    }
  }

  /** What a merge adds to a queue, when the announced indices ascend. */
  lemma NewcomersAscend(queue: seq<int>, indices: seq<int>)
    requires NoDuplicates(queue) && Ascending(indices)
    ensures UniqueMerge(queue, indices) == queue + Newcomers(queue, indices)
    ensures Ascending(Newcomers(queue, indices))
    ensures forall i :: i in Newcomers(queue, indices) <==> i in indices && i !in queue
  {
    UniqueMergeLaws(queue, indices);
    var news := Newcomers(queue, indices);
    forall i, j | 0 <= i < j < |news|
      ensures news[i] < news[j]
    {
      assert news[i] in news && news[j] in news;
      var p :| 0 <= p < |indices| && indices[p] == news[i];
      var q :| 0 <= q < |indices| && indices[q] == news[j];
      assert FirstAt(indices, p, news[i]) && FirstAt(indices, q, news[j]);
    }
  }

  /** An announcement on an empty queue has replaced the requester by a new one, which counts the blocks of the
      first piece named, and gone through the pieces named up to position `m`. */
  ghost predicate StartsAt(l: Local, news: seq<int>, m: nat, l': Local)
    requires m <= |news|
  {
    && |news| > 0 && news[0] in l.shared.table
    && var n := |l.shared.table[news[0]].blocks|;
       GoesOn(l.(conn := l.conn.(queue := news, announced := l.conn.announced + news)),
              Requester(n, n, map[], map[]), m, Handled(l'))
  }

  lemma EnqueueOutcome(l: Local, news: seq<int>, m: nat)
    requires |news| > 0 && |l.conn.queue| == 0 && StopsAt(l.shared.table, news, m)
    ensures Enqueue(l, news, news).Handled? ==> StartsAt(l, news, m, Enqueue(l, news, news).value)
    ensures !Enqueue(l, news, news).Handled? ==> Enqueue(l, news, news) == Crashed
    ensures Enqueue(l, news, news) == Crashed
       <==> news[0] !in l.shared.table || (m < |news| && news[m] !in l.shared.table)
  {
    if news[0] in l.shared.table {
      var r := NewRequester(l.shared.table[news[0]].BlockCount());
      RequestNextOutcome(l.(conn := l.conn.(queue := news, announced := l.conn.announced + news)), r, m);
    }
  }

  /** An announcement that has as many bytes as it must. */
  ghost predicate MeetsTable(l: Local, e: Event) {
    && (e.HaveMsg? ==> |e.payload| >= 4)
    && (e.BitfieldMsg? ==> MaxIdx(l.shared.table.Keys) < 8 * |e.payload|)
  }

  lemma HaveEnqueues(l: Local, c: nat, payload: seq<byte>, news: seq<int>)
    requires |payload| >= 4 && NewPieces(l, HaveMsg(c, payload), news)
    ensures HaveStep(l, payload) == if news == [] then Handled(l) else Enqueue(l, l.conn.queue + news, news)
  {
    var i, e := Uint32(payload), HaveMsg(c, payload);
    assert forall x :: Names(e, MaxIdx(l.shared.table.Keys), x) <==> x == i;
    AscendingIsUnique(news, if i in l.conn.queue then [] else [i]);
  }

  lemma ListedAreNamed(payload: seq<byte>, c: nat, max: nat, indices: seq<int>)
    requires PieceIndices(payload, max) == Ok(indices)
    ensures Ascending(indices) && forall x :: x in indices <==> Names(BitfieldMsg(c, payload), max, x)
  {
    PieceIndicesOutcome(payload, max);
  }

  lemma NewsAreNewcomers(l: Local, c: nat, payload: seq<byte>, news: seq<int>, indices: seq<int>)
    requires NoDuplicates(l.conn.queue) && NewPieces(l, BitfieldMsg(c, payload), news)
    requires PieceIndices(payload, MaxIdx(l.shared.table.Keys)) == Ok(indices)
    ensures news == Newcomers(l.conn.queue, indices) && UniqueMerge(l.conn.queue, indices) == l.conn.queue + news
    ensures |indices| == 0 ==> news == []
    ensures forall x :: x in indices ==> x in news || x in l.conn.queue
  {
    var queue, max := l.conn.queue, MaxIdx(l.shared.table.Keys);
    ListedAreNamed(payload, c, max, indices);
    NewcomersAscend(queue, indices);
    AscendingIsUnique(news, Newcomers(queue, indices));
    if |indices| == 0 {
      NoNews(queue, indices, news);
    }
  }

  lemma BitfieldEnqueues(l: Local, c: nat, payload: seq<byte>, news: seq<int>)
    requires NoDuplicates(l.conn.queue) && NewPieces(l, BitfieldMsg(c, payload), news)
    requires MaxIdx(l.shared.table.Keys) < 8 * |payload|
    ensures BitfieldStep(l, payload) == if news == [] then Handled(l) else Enqueue(l, l.conn.queue + news, news)
  {
    PieceIndicesOutcome(payload, MaxIdx(l.shared.table.Keys));
    var indices := PieceIndices(payload, MaxIdx(l.shared.table.Keys)).value;
    NewsAreNewcomers(l, c, payload, news, indices);
    if |indices| > 0 {
      MergedNotEmpty(l.conn.queue, indices);
      if news == [] {
        NothingNew(l, indices);
      }
    }
  }

  /** Announcing nothing new leaves everything as it is. */
  lemma NothingNew(l: Local, indices: seq<int>)
    requires |indices| > 0 && forall x :: x in indices ==> x in l.conn.queue
    ensures |l.conn.queue| > 0 && Enqueue(l, l.conn.queue + [], []) == Handled(l)
  {
    var x := indices[0];
    assert x in indices;
    assert l.conn.queue + [] == l.conn.queue && l.conn.announced + [] == l.conn.announced;
  }

  lemma NoNews(queue: seq<int>, indices: seq<int>, news: seq<int>)
    requires |indices| == 0 && Ascending(news) && forall x :: x in news ==> x in indices
    ensures news == []
  {
    assert indices == [];
    if |news| > 0 {
      LastIsLargest(news);
    }
  }

  /** There is always such a list of pieces. */
  lemma SomeNews(l: Local, e: Event) returns (news: seq<int>)
    requires (e.HaveMsg? || e.BitfieldMsg?) && MeetsTable(l, e) && NoDuplicates(l.conn.queue)
    ensures NewPieces(l, e, news)
  {
    match e
    case HaveMsg(_, payload) =>
      var i := Uint32(payload);
      assert forall x :: Names(e, MaxIdx(l.shared.table.Keys), x) <==> x == i;
      news := if i in l.conn.queue then [] else [i];
    case BitfieldMsg(_, payload) =>
      PieceIndicesOutcome(payload, MaxIdx(l.shared.table.Keys));
      news := Newcomers(l.conn.queue, PieceIndices(payload, MaxIdx(l.shared.table.Keys)).value);
      NewcomersAscend(l.conn.queue, PieceIndices(payload, MaxIdx(l.shared.table.Keys)).value);
  }

  /** The pieces an announcement adds, and what is made of them. */
  lemma AnnouncementEnqueues(l: Local, e: Event, news: seq<int>)
    requires (e.HaveMsg? || e.BitfieldMsg?) && MeetsTable(l, e)
    requires NoDuplicates(l.conn.queue) && NewPieces(l, e, news)
    ensures LocalStep(l, e) == if news == [] then Handled(l) else Enqueue(l, l.conn.queue + news, news)
  {
    match e
    case HaveMsg(c, payload) => HaveEnqueues(l, c, payload, news);
    case BitfieldMsg(c, payload) => BitfieldEnqueues(l, c, payload, news);
  }

  /** The outcome of an announcement, in terms of the pieces the message names.  What is not queued yet is
      appended to the queue in ascending order; on a queue that was not empty nothing else happens, and on one
      that was empty the download of the first piece to be had begins. */
  lemma AnnouncementOutcome(l: Local, e: Event, news: seq<int>, m: nat)
    requires (e.HaveMsg? || e.BitfieldMsg?) && NoDuplicates(l.conn.queue) && NewPieces(l, e, news)
    requires StopsAt(l.shared.table, news, m) && LocalStep(l, e).Handled?
    ensures var l' := LocalStep(l, e).value;
      if news == [] then l' == l
      else if |l.conn.queue| > 0
        then l' == l.(conn := l.conn.(queue := l.conn.queue + news, announced := l.conn.announced + news))
        else StartsAt(l, news, m, l')
  {
    AnnouncementMeetsTable(l, e);
    AnnouncementEnqueues(l, e, news);
    if news != [] && |l.conn.queue| == 0 {
      assert l.conn.queue + news == news;
      EnqueueOutcome(l, news, m);
    }
  }

  lemma AnnouncementMeetsTable(l: Local, e: Event)
    requires (e.HaveMsg? || e.BitfieldMsg?) && LocalStep(l, e).Handled?
    ensures MeetsTable(l, e)
  {
    if e.BitfieldMsg? {
      PieceIndicesOutcome(e.payload, MaxIdx(l.shared.table.Keys));
    }
  }

  lemma TooShortFails(l: Local, e: Event)
    requires (e.HaveMsg? || e.BitfieldMsg?) && !MeetsTable(l, e)
    ensures LocalStep(l, e)
         == if e.BitfieldMsg? && MaxIdx(l.shared.table.Keys) > 8 * |e.payload| then Rejected else Crashed
  {
    if e.BitfieldMsg? {
      PieceIndicesOutcome(e.payload, MaxIdx(l.shared.table.Keys));
    }
  }

  /** When an announcement is not handled.  A BITFIELD that lacks more than one bit of the table is answered with
      an error.  A HAVE of fewer than four bytes, a BITFIELD that lacks just one bit, and an announcement on an
      empty queue that meets an unknown piece crash the client. */
  lemma AnnouncementFails(l: Local, e: Event, news: seq<int>, m: nat)
    requires (e.HaveMsg? || e.BitfieldMsg?) && NoDuplicates(l.conn.queue) && NewPieces(l, e, news)
    requires StopsAt(l.shared.table, news, m)
    ensures LocalStep(l, e).Rejected? <==> e.BitfieldMsg? && MaxIdx(l.shared.table.Keys) > 8 * |e.payload|
    ensures !LocalStep(l, e).Stuck?
    ensures LocalStep(l, e).Crashed? <==>
      || (e.HaveMsg? && |e.payload| < 4)
      || (e.BitfieldMsg? && MaxIdx(l.shared.table.Keys) == 8 * |e.payload|)
      || (|l.conn.queue| == 0 && |news| > 0
          && (news[0] !in l.shared.table || (m < |news| && news[m] !in l.shared.table)))
  {
    if MeetsTable(l, e) {
      AnnouncementEnqueues(l, e, news);
      if |news| > 0 && |l.conn.queue| == 0 {
        assert l.conn.queue + news == news;
        EnqueueOutcome(l, news, m);
      }
    } else {
      TooShortFails(l, e);
      assert |news| > 0 ==> Names(e, MaxIdx(l.shared.table.Keys), news[0]);
    }
  }

  // ---------- replies, whatever block they bring ----------

  /** The reply's fields name the block it brings; a reply that brings no bytes is answered with an error. */
  lemma ReplyIsOfBlock(l: Local, payload: seq<byte>, p: int, begin: int)
    ensures |payload| <= 8 ==> PieceStep(l, payload) == Rejected
    ensures |payload| > 8 && NumberAt(payload, 0, p) && NumberAt(payload, 4, begin) ==>
      var size := |payload| - 8;
      PieceStep(l, payload) == BlockStep(l, Block(begin / size, p, begin, payload[8..], size % TWO_TO_32, false))
  {
    PieceFields(payload, p, begin);
  }

  /** The block has been counted, and its time-out called off. */
  function Counted(r: Requester, k: int): Requester {
    Requester(r.total, r.blocksLeft - 1, r.data[k := Closed], r.waiting - {k})
  }

  /** The block has been saved under its name. */
  function SavedBlock(l: Local, b: Block): Local {
    var dir := l.shared.files.blocksDir[BlockName(b.pieceIdx, b.idx) := b.buff];
    Local(l.shared.(files := l.shared.files.(blocksDir := dir), saved := l.shared.saved + [b.Id()]),
          l.conn.(owed := l.conn.owed - multiset{b.Id()}))
  }

  /** The table with piece `p` done. */
  function WithDone(table: Table, p: int): Table
    requires p in table
  {
    map i | i in table :: if i == p then table[i].(status := Done) else table[i]
  }

  lemma DoneIsFinished(table: Table, p: int)
    requires p in table
    ensures WithDone(table, p) == Finish(table, p)
  {
  }

  /** How a reply ends: with no requester, and on a closed channel, the client crashes, without a channel it
      blocks.  Otherwise the block is saved and counted, and that is all unless it is counted as the last. */
  lemma BlockOutcome(l: Local, b: Block)
    ensures !BlockStep(l, b).Rejected?
    ensures l.conn.requester == None ==> BlockStep(l, b) == Crashed
    ensures l.conn.requester.Some? ==>
      var r := l.conn.requester.value;
      && (b.idx !in r.data <==> BlockStep(l, b).Stuck?)
      && (b.idx in r.data && r.data[b.idx] == Closed ==> BlockStep(l, b) == Crashed)
      && (b.idx in r.data && r.data[b.idx] == Open && r.blocksLeft != 1 ==>
            var l1 := SavedBlock(l, b);
            BlockStep(l, b) == Handled(l1.(conn := l1.conn.(requester := Some(Counted(r, b.idx))))))
  {
    if l.conn.requester.Some? && Missing(l.conn, b.idx) && l.conn.requester.value.blocksLeft == 1 {
      LastIsNotRejected(l, b);
    }
  }

  lemma LastIsNotRejected(l: Local, b: Block)
    requires Missing(l.conn, b.idx) && l.conn.requester.value.blocksLeft == 1
    ensures !BlockStep(l, b).Rejected? && !BlockStep(l, b).Stuck?
  {
  }

  /** A block counted as the last of a piece: the piece must be known.  It is done, and the requester counts from
      its total again.  If all pieces are done now the finished file is assembled, unless there is one, and
      seeded; otherwise the next piece is requested, if there is one to be had. */
  lemma LastBlockOutcome(l: Local, b: Block, m: nat)
    requires Missing(l.conn, b.idx) && l.conn.requester.value.blocksLeft == 1
    requires b.pieceIdx in l.shared.table ==> StopsAt(WithDone(l.shared.table, b.pieceIdx), l.conn.queue, m)
    ensures b.pieceIdx !in l.shared.table ==> BlockStep(l, b) == Crashed
    ensures b.pieceIdx in l.shared.table ==>
      var table, r := WithDone(l.shared.table, b.pieceIdx), l.conn.requester.value;
      var r1 := Counted(r, b.idx).(blocksLeft := r.total);
      var l1 := Local(SavedBlock(l, b).shared.(table := table),
                      SavedBlock(l, b).conn.(inFlight := l.conn.inFlight - {b.pieceIdx}));
      if AllDone(table) then BlockStep(l, b).Handled? && FinishedHere(l1, r1, BlockStep(l, b).value)
      else GoesOn(l1, r1, m, BlockStep(l, b))
  {
    if b.pieceIdx in l.shared.table {
      DoneIsFinished(l.shared.table, b.pieceIdx);
      UndoneEmpty(WithDone(l.shared.table, b.pieceIdx));
      var r := l.conn.requester.value;
      assert Counted(r, b.idx) == Receive(r, b.idx) && SavedBlock(l, b) == Accept(l, b);
      var l1 := Local(Accept(l, b).shared.(table := Finish(l.shared.table, b.pieceIdx)),
                      Accept(l, b).conn.(inFlight := l.conn.inFlight - {b.pieceIdx}));
      if !AllDone(l1.shared.table) {
        RequestNextOutcome(l1, Receive(r, b.idx).(blocksLeft := r.total), m);
      }
    }
  }

  /** The download has been finalised, and nothing else has happened. */
  ghost predicate FinishedHere(l: Local, r: Requester, l': Local) {
    && l'.conn == l.conn.(requester := Some(r))
    && l'.shared == l.shared.(files := l'.shared.files, finalizations := l.shared.finalizations + 1)
    && l'.shared.files.isSeeding
    && if l.shared.files.finalFile.Some?
       then l'.shared.files.finalFile == l.shared.files.finalFile
            && l'.shared.files.blocksDir == l.shared.files.blocksDir
       else l'.shared.files.finalFile == Some(Assembled(l.shared.files.blocksDir)) && l'.shared.files.blocksDir == map[]
  }
}
