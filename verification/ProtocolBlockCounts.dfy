/** A requester counts the blocks of the first queued piece, whatever pieces follow: when that is enough.
    Unlike in the other protocol modules, pieces may have different numbers of blocks here. */
module ProtocolBlockCounts {
  import opened Wrappers
  import opened SliceUtil
  import opened Cardinality
  import opened Pieces
  import opened Protocol
  import opened ProtocolInvariant
  import opened ProtocolSteps
  import opened ProtocolReplies
  import opened ProtocolAccounts

  /** Every piece has blocks, and they are numbered by position. */
  ghost predicate WellNumbered(table: Table) {
    forall i :: i in table ==>
      |table[i].blocks| > 0 &&
      forall k :: 0 <= k < |table[i].blocks| ==> table[i].blocks[k].Id() == BlockId(i, k)
  }

  function Count(l: Local, i: int): nat {
    if i in l.shared.table then l.shared.table[i].BlockCount() else 0
  }

  ghost predicate IsDone(l: Local, i: int) {
    i in l.shared.table && l.shared.table[i].status == Done
  }

  ghost predicate SavedBlock(l: Local, i: int, k: int) {
    BlockId(i, k) in l.shared.saved
  }

  ghost predicate SavedExactly(l: Local, i: int, ks: set<int>) {
    forall k :: SavedBlock(l, i, k) <==> k in ks
  }

  /** All blocks of the piece have been saved. */
  ghost predicate Complete(l: Local, i: int) {
    forall k :: 0 <= k < Count(l, i) ==> SavedBlock(l, i, k)
  }

  // ---------- runs of answers ----------

  /** The state after these blocks have arrived on the connection one after the other. */
  ghost function Take(l: Local, bs: seq<Block>): Outcome<Local>
    decreases |bs|
  {
    if |bs| == 0 then Handled(l)
    else match BlockStep(l, bs[0])
         case Handled(l') => Take(l', bs[1..])
         case failed => failed
  }

  /** Each block is one that the connection waits for, of the piece it reserved last. */
  ghost predicate Answering(l: Local, bs: seq<Block>)
    decreases |bs|
  {
    |bs| == 0 ||
    (|l.shared.reservations| > 0 && bs[0].pieceIdx == l.shared.reservations[|l.shared.reservations| - 1]
     && Missing(l.conn, bs[0].idx)
     && (BlockStep(l, bs[0]).Handled? ==> Answering(BlockStep(l, bs[0]).value, bs[1..])))
  }

  /** No queued piece is marked done with a block missing, and when nothing is waited for all are done. */
  ghost predicate Served(l: Local, queue: seq<int>) {
    && (forall i :: i in queue && IsDone(l, i) ==> Complete(l, i))
    && (OpenCount(l.conn) == 0 ==> forall i :: i in queue ==> IsDone(l, i))
  }

  // ---------- the states in between ----------

  /** The queued pieces before position `j` are done, that at `j` is being downloaded, the others are idle. */
  ghost predicate StatusesAt(table: Table, queue: seq<int>, j: nat) {
    forall m :: 0 <= m < |queue| ==>
      queue[m] in table && table[queue[m]].status == if m < j then Done else if m == j then Downloading else Idle
  }

  /** Of the queued pieces those before position `j` are saved completely, of that at `j` the blocks `got`, and
      nothing of the others. */
  ghost predicate SavedAt(l: Local, queue: seq<int>, j: nat, got: set<int>) {
    && (forall m :: 0 <= m < j && m < |queue| ==> Complete(l, queue[m]))
    && forall m :: j <= m < |queue| ==> SavedExactly(l, queue[m], if m == j then got else {})
  }

  /** The requester counts `n` blocks of a piece that has `m`, and has received `got`. */
  ghost predicate MidRequester(r: Requester, n: nat, m: nat, got: set<int>) {
    && got <= Range(m) && |got| < n
    && r.total == n && r.blocksLeft == n - |got| && OpenBlocks(r) == Range(m) - got && r.waiting.Keys <= OpenBlocks(r)
  }

  ghost predicate MidShared(l: Local, queue: seq<int>, j: nat, got: set<int>) {
    && WellNumbered(l.shared.table) && NoDuplicates(queue) && j < |queue|
    && |l.shared.reservations| > 0 && l.shared.reservations[|l.shared.reservations| - 1] == queue[j]
    && StatusesAt(l.shared.table, queue, j) && SavedAt(l, queue, j, got)
  }

  /** The connection has reserved the piece at position `j`, and has received its blocks `got`. */
  ghost predicate Mid(l: Local, queue: seq<int>, n: nat, j: nat, got: set<int>) {
    && MidShared(l, queue, j, got) && l.conn.queue == queue[j + 1..]
    && l.conn.requester.Some? && MidRequester(l.conn.requester.value, n, Count(l, queue[j]), got)
  }

  /** All queued pieces are done and saved, and nothing is waited for. */
  ghost predicate Finished(l: Local, queue: seq<int>) {
    OpenCount(l.conn) == 0 && forall i :: i in queue ==> IsDone(l, i) && Complete(l, i)
  }

  lemma ReceiveMid(r: Requester, n: nat, m: nat, got: set<int>, k: int)
    requires MidRequester(r, n, m, got) && k in r.data && r.data[k] == Open
    ensures k in OpenBlocks(r) && OpenBlocks(Receive(r, k)) == Range(m) - (got + {k}) && got + {k} <= Range(m)
    ensures |got + {k}| == |got| + 1 && Receive(r, k).blocksLeft == n - |got| - 1
    ensures Receive(r, k).waiting.Keys <= OpenBlocks(Receive(r, k))
    ensures |got| + 1 < n ==> MidRequester(Receive(r, k), n, m, got + {k})
  {
    assert k in OpenBlocks(r);
    assert OpenBlocks(Receive(r, k)) == OpenBlocks(r) - {k};
  }

  lemma SaveMid(l: Local, queue: seq<int>, j: nat, got: set<int>, l': Local, k: int)
    requires SavedAt(l, queue, j, got) && j < |queue| && NoDuplicates(queue)
    requires l'.shared.saved == l.shared.saved + [BlockId(queue[j], k)]
    requires forall i :: Count(l', i) == Count(l, i)
    ensures SavedAt(l', queue, j, got + {k})
  {
    forall i, x
      ensures SavedBlock(l', i, x) <==> SavedBlock(l, i, x) || (i == queue[j] && x == k)
    {
    }
    forall m | j <= m < |queue|
      ensures SavedExactly(l', queue[m], if m == j then got + {k} else {})
    {
      assert SavedExactly(l, queue[m], if m == j then got else {});
      assert m != j ==> queue[m] != queue[j];
    }
    forall m | 0 <= m < j && m < |queue|
      ensures Complete(l', queue[m])
    {
      assert Complete(l, queue[m]);
    }
  }

  /** A block that is not counted as the last. */
  lemma MidStep(l: Local, queue: seq<int>, n: nat, j: nat, got: set<int>, b: Block)
    requires Mid(l, queue, n, j, got) && b.pieceIdx == queue[j] && Missing(l.conn, b.idx) && |got| + 1 < n
    ensures BlockStep(l, b).Handled? && Mid(BlockStep(l, b).value, queue, n, j, got + {b.idx})
  {
    ReceiveMid(l.conn.requester.value, n, Count(l, queue[j]), got, b.idx);
    MiddleBlockStep(l, b);
    SaveMid(l, queue, j, got, BlockStep(l, b).value, b.idx);
    assert MidShared(BlockStep(l, b).value, queue, j, got + {b.idx});
  }

  lemma MiddleBlockStep(l: Local, b: Block)
    requires Missing(l.conn, b.idx) && Receive(l.conn.requester.value, b.idx).blocksLeft != 0
    ensures BlockStep(l, b)
         == Handled(Local(Accept(l, b).shared,
                          Accept(l, b).conn.(requester := Some(Receive(l.conn.requester.value, b.idx)))))
  {
  }

  /** The piece at position `j` is the next to be reserved. */
  ghost predicate AboutTo(l: Local, queue: seq<int>, j: nat) {
    && WellNumbered(l.shared.table) && NoDuplicates(queue) && j < |queue| && l.conn.queue == queue[j..]
    && SavedAt(l, queue, j, {})
    && forall m :: 0 <= m < |queue| ==>
         queue[m] in l.shared.table && l.shared.table[queue[m]].status == if m < j then Done else Idle
  }

  lemma NumberedIdxs(table: Table, i: int)
    requires WellNumbered(table) && i in table
    ensures BlockIdxs(table[i].blocks) == Range(|table[i].blocks|)
  {
    var blocks := table[i].blocks;
    forall k | 0 <= k < |blocks|
      ensures k in BlockIdxs(blocks)
    {
      assert blocks[k] in blocks && blocks[k].Id() == BlockId(i, k);
    }
    forall k | k in BlockIdxs(blocks)
      ensures 0 <= k < |blocks|
    {
      var p :| 0 <= p < |blocks| && blocks[p].idx == k;
      assert blocks[p].Id() == BlockId(i, p);
    }
  }

  lemma ReserveKeepsNumbers(table: Table, i: int, peerId: string)
    requires WellNumbered(table) && i in table
    ensures WellNumbered(Reserve(table, i, peerId)) && WellNumbered(Finish(table, i))
  {
  }

  /** The requester is about to count `n` blocks. */
  ghost predicate Unused(r: Requester, n: nat) {
    r.total == n == r.blocksLeft && OpenBlocks(r) == {} && r.waiting == map[]
  }

  lemma RequestPiece(table: Table, i: int, r: Requester, n: nat)
    requires WellNumbered(table) && i in table && Unused(r, n)
    ensures var r' := RequestAll(r, table[i].blocks);
      r'.total == n == r'.blocksLeft && OpenBlocks(r') == Range(|table[i].blocks|)
      && r'.waiting.Keys <= OpenBlocks(r')
  {
    NumberedIdxs(table, i);
    RequestAllOpens(r, table[i].blocks);
    OpenedRange(r, |table[i].blocks|, RequestAll(r, table[i].blocks));
  }

  lemma OpenedRange(r: Requester, m: nat, r': Requester)
    requires OpenBlocks(r) == {} && r.waiting == map[] && Opened(r, Range(m), r')
    ensures OpenBlocks(r') == Range(m) && r'.waiting.Keys <= OpenBlocks(r')
  {
    assert forall k :: k in OpenBlocks(r') <==> k in Range(m);
  }

  lemma ReserveSaved(l: Local, l': Local, queue: seq<int>, j: nat)
    requires SavedAt(l, queue, j, {}) && l'.shared.saved == l.shared.saved && forall i :: Count(l', i) == Count(l, i)
    ensures SavedAt(l', queue, j, {})
  {
    SameBlocksSaved(l, l');
  }

  lemma SameBlocksSaved(l: Local, l': Local)
    requires l'.shared.saved == l.shared.saved && forall i :: Count(l', i) == Count(l, i)
    ensures forall i :: Complete(l', i) <==> Complete(l, i)
    ensures forall i, ks :: SavedExactly(l', i, ks) <==> SavedExactly(l, i, ks)
  {
    forall i, k
      ensures SavedBlock(l', i, k) <==> SavedBlock(l, i, k)
    {
    }
  }

  lemma ReserveMid(l: Local, r: Requester, queue: seq<int>, n: nat, j: nat)
    requires AboutTo(l, queue, j) && n > 0 && Unused(r, n)
    ensures Mid(ReserveFor(l, r, queue[j], queue[j + 1..]), queue, n, j, {})
  {
    var l' := ReserveFor(l, r, queue[j], queue[j + 1..]);
    RequestPiece(l.shared.table, queue[j], r, n);
    ReserveKeepsNumbers(l.shared.table, queue[j], l.conn.peerId);
    ReserveSaved(l, l', queue, j);
    assert StatusesAt(l'.shared.table, queue, j);
  }

  lemma NextMid(l: Local, r: Requester, queue: seq<int>, n: nat, j: nat)
    requires AboutTo(l, queue, j) && n > 0 && Unused(r, n)
    ensures RequestNext(l, r).Handled? && Mid(RequestNext(l, r).value, queue, n, j, {})
  {
    assert queue[j..][0] == queue[j] && queue[j..][1..] == queue[j + 1..];
    assert NextIdle(l.shared.table, l.conn.queue) == Reserved([], queue[j], queue[j + 1..]);
    ReserveMid(l, r, queue, n, j);
  }

  /** The piece at position `j` has been marked done, its blocks `got` saved, and nothing requested since. */
  ghost predicate Marked(l: Local, queue: seq<int>, j: nat, got: set<int>) {
    && WellNumbered(l.shared.table) && NoDuplicates(queue) && j < |queue| && l.conn.queue == queue[j + 1..]
    && SavedAt(l, queue, j, got)
    && forall m :: 0 <= m < |queue| ==>
         queue[m] in l.shared.table && l.shared.table[queue[m]].status == if m <= j then Done else Idle
  }

  lemma MarkedDone(l: Local, queue: seq<int>, n: nat, j: nat, got: set<int>, b: Block)
    requires Mid(l, queue, n, j, got) && b.pieceIdx == queue[j]
    ensures Marked(Between(l, b), queue, j, got + {b.idx}) && forall i :: Count(Between(l, b), i) == Count(l, i)
  {
    ReserveKeepsNumbers(l.shared.table, queue[j], "");
    SaveMid(l, queue, j, got, Between(l, b), b.idx);
  }

  /** The requester after the reply counted as the last. */
  function ResetAfter(l: Local, n: nat, b: Block): Requester
    requires Missing(l.conn, b.idx)
  {
    Receive(l.conn.requester.value, b.idx).(blocksLeft := n)
  }

  /** The reply counted as the last: the piece is marked done, and what follows depends on the table. */
  lemma MidEnds(l: Local, queue: seq<int>, n: nat, j: nat, got: set<int>, b: Block)
    requires Mid(l, queue, n, j, got) && b.pieceIdx == queue[j] && Missing(l.conn, b.idx) && |got| + 1 == n
    ensures b.pieceIdx in l.shared.table
    ensures var l1, r := Between(l, b), ResetAfter(l, n, b);
      BlockStep(l, b) == if |Undone(l1.shared.table)| != 0 then RequestNext(l1, r) else Handled(FinalizeWith(l1, r))
  {
    ReceiveMid(l.conn.requester.value, n, Count(l, queue[j]), got, b.idx);
    CountedAsLast(l, n, b);
  }

  lemma CountedAsLast(l: Local, n: nat, b: Block)
    requires Missing(l.conn, b.idx) && Receive(l.conn.requester.value, b.idx).blocksLeft == 0
    requires l.conn.requester.value.total == n && b.pieceIdx in l.shared.table
    ensures var l1, r := Between(l, b), ResetAfter(l, n, b);
      BlockStep(l, b) == if |Undone(l1.shared.table)| != 0 then RequestNext(l1, r) else Handled(FinalizeWith(l1, r))
  {
    LastStep(l, b);
  }

  lemma GotAll(l: Local, queue: seq<int>, n: nat, j: nat, got: set<int>, b: Block)
    requires Mid(l, queue, n, j, got) && b.pieceIdx == queue[j] && Missing(l.conn, b.idx) && |got| + 1 == n
    ensures got + {b.idx} <= Range(Count(l, queue[j])) && |got + {b.idx}| == n <= Count(l, queue[j])
    ensures Count(l, queue[j]) == n ==> got + {b.idx} == Range(n) && Unused(ResetAfter(l, n, b), n)
  {
    ReceiveMid(l.conn.requester.value, n, Count(l, queue[j]), got, b.idx);
    SubsetSize(got + {b.idx}, Range(Count(l, queue[j])));
    if Count(l, queue[j]) == n {
      AllReceived(l.conn.requester.value, n, got, b.idx);
    }
  }

  lemma AllReceived(r: Requester, n: nat, got: set<int>, k: int)
    requires MidRequester(r, n, n, got) && k in r.data && r.data[k] == Open && |got| + 1 == n
    ensures Unused(Receive(r, k).(blocksLeft := n), n)
  {
    var r' := Receive(r, k);
    ReceiveMid(r, n, n, got, k);
    SubsetSize(got + {k}, Range(n));
    assert OpenBlocks(r'.(blocksLeft := n)) == OpenBlocks(r') == {};
    assert r'.waiting.Keys == {};
  }

  lemma SavedNext(l: Local, queue: seq<int>, j: nat, got: set<int>)
    requires SavedAt(l, queue, j, got) && j < |queue| && NoDuplicates(queue) && got == Range(Count(l, queue[j]))
    ensures SavedAt(l, queue, j + 1, {})
  {
    assert SavedExactly(l, queue[j], got);
    forall k | 0 <= k < Count(l, queue[j])
      ensures SavedBlock(l, queue[j], k)
    {
      assert k in got;
    }
  }

  /** The last block of a piece with as many blocks as the requester counts. */
  lemma MidLast(l: Local, queue: seq<int>, n: nat, j: nat, got: set<int>, b: Block)
    requires Mid(l, queue, n, j, got) && b.pieceIdx == queue[j] && Missing(l.conn, b.idx) && |got| + 1 == n
    requires Count(l, queue[j]) == n
    ensures BlockStep(l, b).Handled?
    ensures if j + 1 < |queue| then Mid(BlockStep(l, b).value, queue, n, j + 1, {})
            else Finished(BlockStep(l, b).value, queue)
  {
    MidEnds(l, queue, n, j, got, b);
    GotAll(l, queue, n, j, got, b);
    MarkedDone(l, queue, n, j, got, b);
    AfterLast(Between(l, b), ResetAfter(l, n, b), queue, n, j);
  }

  lemma AfterLast(l: Local, r: Requester, queue: seq<int>, n: nat, j: nat)
    requires j < |queue| && n > 0 && Marked(l, queue, j, Range(Count(l, queue[j]))) && Unused(r, n)
    ensures j + 1 < |queue| ==>
      |Undone(l.shared.table)| != 0 && RequestNext(l, r).Handled? && Mid(RequestNext(l, r).value, queue, n, j + 1, {})
    ensures j + 1 == |queue| ==>
      RequestNext(l, r).Handled? && Finished(RequestNext(l, r).value, queue) && Finished(FinalizeWith(l, r), queue)
  {
    SavedNext(l, queue, j, Range(Count(l, queue[j])));
    if j + 1 < |queue| {
      assert queue[j + 1] in Undone(l.shared.table);
      NextMid(l, r, queue, n, j + 1);
    } else {
      QueueOver(l, r, queue);
    }
  }

  lemma QueueOver(l: Local, r: Requester, queue: seq<int>)
    requires |l.conn.queue| == 0 && OpenBlocks(r) == {} && SavedAt(l, queue, |queue|, {})
    requires forall m :: 0 <= m < |queue| ==> queue[m] in l.shared.table && l.shared.table[queue[m]].status == Done
    ensures RequestNext(l, r).Handled? && Finished(RequestNext(l, r).value, queue)
    ensures Finished(FinalizeWith(l, r), queue)
  {
    forall i | i in queue
      ensures IsDone(l, i) && Complete(l, i)
    {
      var m :| 0 <= m < |queue| && queue[m] == i;
    }
    RequestNextSucceeds(l, r);
    SameBlocksSaved(l, RequestNext(l, r).value);
    SameBlocksSaved(l, FinalizeWith(l, r));
  }

  lemma LacksBlock(l: Local, queue: seq<int>, j: nat, got: set<int>)
    requires SavedAt(l, queue, j, got) && j < |queue| && |got| < Count(l, queue[j])
    ensures !Complete(l, queue[j])
  {
    assert SavedExactly(l, queue[j], got);
    if Range(Count(l, queue[j])) <= got {
      SubsetSize(Range(Count(l, queue[j])), got);
    }
    var k :| k in Range(Count(l, queue[j])) && k !in got;
    assert !SavedBlock(l, queue[j], k);
  }

  /** The block counted as the last of a piece that has more. */
  lemma MidTooEarly(l: Local, queue: seq<int>, n: nat, j: nat, got: set<int>, b: Block)
    requires Mid(l, queue, n, j, got) && b.pieceIdx == queue[j] && Missing(l.conn, b.idx) && |got| + 1 == n
    requires Count(l, queue[j]) > n
    ensures BlockStep(l, b).Handled? && !Served(BlockStep(l, b).value, queue)
  {
    MidEnds(l, queue, n, j, got, b);
    GotAll(l, queue, n, j, got, b);
    MarkedDone(l, queue, n, j, got, b);
    LacksBlock(Between(l, b), queue, j, got + {b.idx});
    MarkedTooEarly(Between(l, b), ResetAfter(l, n, b), queue, j, got + {b.idx});
  }

  lemma MarkedTooEarly(l: Local, r: Requester, queue: seq<int>, j: nat, got: set<int>)
    requires Marked(l, queue, j, got) && !Complete(l, queue[j])
    ensures RequestNext(l, r).Handled? && !Served(RequestNext(l, r).value, queue)
    ensures !Served(FinalizeWith(l, r), queue)
  {
    AllKnown(l, queue, j);
    RequestNextSucceeds(l, r);
    SameBlocksSaved(l, RequestNext(l, r).value);
    SameBlocksSaved(l, FinalizeWith(l, r));
    assert queue[j] in queue;
  }

  lemma AllKnown(l: Local, queue: seq<int>, j: nat)
    requires j < |queue| && l.conn.queue == queue[j + 1..]
    requires forall m :: 0 <= m < |queue| ==> queue[m] in l.shared.table
    ensures forall x :: x in l.conn.queue ==> x in l.shared.table
  {
    forall x | x in l.conn.queue
      ensures x in l.shared.table
    {
      var m :| 0 <= m < |queue[j + 1..]| && queue[j + 1..][m] == x;
      assert queue[j + 1 + m] == x;
    }
  }

  // ---------- when a queue is served ----------

  ghost predicate AllCount(l: Local, queue: seq<int>, n: nat) {
    forall i :: i in queue ==> Count(l, i) == n
  }

  lemma StepKeepsCounts(l: Local, b: Block)
    requires BlockStep(l, b).Handled?
    ensures forall i :: Count(BlockStep(l, b).value, i) == Count(l, i)
  {
    var r := Receive(l.conn.requester.value, b.idx);
    if r.blocksLeft == 0 {
      LastStep(l, b);
      var l1 := Between(l, b);
      NextIdleLaws(l1.shared.table, l1.conn.queue);
    }
  }

  lemma MidServed(l: Local, queue: seq<int>, n: nat, j: nat, got: set<int>)
    requires Mid(l, queue, n, j, got) && Count(l, queue[j]) == n
    ensures Served(l, queue)
  {
    if Range(n) - got == {} {
      SubsetSize(Range(n), got);
    }
    forall i | i in queue && IsDone(l, i)
      ensures Complete(l, i)
    {
      var m :| 0 <= m < |queue| && queue[m] == i;
    }
  }

  /** With equal counts every run of answers is handled and serves the queue. */
  lemma {:induction false} AnswersServe(l: Local, queue: seq<int>, n: nat, j: nat, got: set<int>, bs: seq<Block>)
    requires Mid(l, queue, n, j, got) && AllCount(l, queue, n) && Answering(l, bs)
    ensures Take(l, bs).Handled? && Served(Take(l, bs).value, queue)
    decreases |bs|
  {
    assert queue[j] in queue;
    if |bs| == 0 {
      MidServed(l, queue, n, j, got);
    } else if |got| + 1 < n {
      MidStep(l, queue, n, j, got, bs[0]);
      StepKeepsCounts(l, bs[0]);
      AnswersServe(BlockStep(l, bs[0]).value, queue, n, j, got + {bs[0].idx}, bs[1..]);
    } else {
      MidLast(l, queue, n, j, got, bs[0]);
      StepKeepsCounts(l, bs[0]);
      if j + 1 < |queue| {
        AnswersServe(BlockStep(l, bs[0]).value, queue, n, j + 1, {}, bs[1..]);
      } else {
        NothingToAnswer(BlockStep(l, bs[0]).value, queue, bs[1..]);
      }
    }
  }

  lemma NothingToAnswer(l: Local, queue: seq<int>, bs: seq<Block>)
    requires Finished(l, queue) && Answering(l, bs)
    ensures Take(l, bs).Handled? && Served(Take(l, bs).value, queue)
  {
    if |bs| > 0 {
      MissingIsOpen(l.conn, bs[0].idx);
    }
  }

  lemma MissingIsOpen(c: Conn, k: int)
    requires Missing(c, k)
    ensures OpenCount(c) > 0
  {
    assert k in OpenBlocks(c.requester.value);
  }

  lemma TakeFirst(l: Local, b: Block, bs: seq<Block>)
    requires BlockStep(l, b).Handled?
    ensures Take(l, [b] + bs) == Take(BlockStep(l, b).value, bs)
    ensures |l.shared.reservations| > 0 && b.pieceIdx == l.shared.reservations[|l.shared.reservations| - 1]
            && Missing(l.conn, b.idx) && Answering(BlockStep(l, b).value, bs)
            ==> Answering(l, [b] + bs)
  {
    assert ([b] + bs)[1..] == bs;
  }

  /** Answers that leave a piece marked done without its blocks, or waiting for ever. */
  ghost predicate Fails(l: Local, queue: seq<int>, bs: seq<Block>) {
    Answering(l, bs) && Take(l, bs).Handled? && !Served(Take(l, bs).value, queue)
  }

  lemma TakeFails(l: Local, queue: seq<int>, n: nat, j: nat, got: set<int>, b: Block, bs: seq<Block>)
    requires Mid(l, queue, n, j, got) && b.pieceIdx == queue[j] && Missing(l.conn, b.idx) && BlockStep(l, b).Handled?
    requires Fails(BlockStep(l, b).value, queue, bs)
    ensures Fails(l, queue, [b] + bs)
  {
    TakeFirst(l, b, bs);
  }

  /** With a piece still to come whose count differs, the answers to the requests made lead to failure. */
  lemma {:induction false} SomeAnswersFail(l: Local, queue: seq<int>, n: nat, j: nat, got: set<int>)
    returns (bs: seq<Block>)
    requires Mid(l, queue, n, j, got) && exists m :: j <= m < |queue| && Count(l, queue[m]) != n
    ensures Fails(l, queue, bs)
    decreases |queue| - j, n - |got|
  {
    var open := Range(Count(l, queue[j])) - got;
    if |open| == 0 {
      assert !IsDone(l, queue[j]) && queue[j] in queue;
      return [];
    }
    var b := l.shared.table[queue[j]].blocks[Choose(open)];
    assert b.Id() == BlockId(queue[j], Choose(open)) && Missing(l.conn, b.idx);
    var rest := [];
    if |got| + 1 < n {
      MidStep(l, queue, n, j, got, b);
      ReceiveMid(l.conn.requester.value, n, Count(l, queue[j]), got, b.idx);
      StepKeepsCounts(l, b);
      rest := SomeAnswersFail(BlockStep(l, b).value, queue, n, j, got + {b.idx});
    } else {
      rest := LastAnswerFails(l, queue, n, j, got, b);
    }
    TakeFails(l, queue, n, j, got, b, rest);
    bs := [b] + rest;
  }

  lemma {:induction false} LastAnswerFails(l: Local, queue: seq<int>, n: nat, j: nat, got: set<int>, b: Block)
    returns (bs: seq<Block>)
    requires Mid(l, queue, n, j, got) && exists m :: j <= m < |queue| && Count(l, queue[m]) != n
    requires b.pieceIdx == queue[j] && Missing(l.conn, b.idx) && |got| + 1 == n
    ensures BlockStep(l, b).Handled? && Fails(BlockStep(l, b).value, queue, bs)
    decreases |queue| - j, 0
  {
    GotAll(l, queue, n, j, got, b);
    if Count(l, queue[j]) == n {
      MidLast(l, queue, n, j, got, b);
      StepKeepsCounts(l, b);
      bs := SomeAnswersFail(BlockStep(l, b).value, queue, n, j + 1, {});
    } else {
      MidTooEarly(l, queue, n, j, got, b);
      bs := [];
    }
  }

  /** Every run of answers is handled and serves the queue. */
  ghost predicate AlwaysServed(l: Local, queue: seq<int>) {
    forall bs :: Answering(l, bs) ==> Take(l, bs).Handled? && Served(Take(l, bs).value, queue)
  }

  lemma MidAlwaysServedIff(l: Local, queue: seq<int>, n: nat)
    requires Mid(l, queue, n, 0, {})
    ensures AlwaysServed(l, queue) <==> AllCount(l, queue, n)
  {
    if AllCount(l, queue, n) {
      forall bs | Answering(l, bs)
        ensures Take(l, bs).Handled? && Served(Take(l, bs).value, queue)
      {
        AnswersServe(l, queue, n, 0, {}, bs);
      }
    } else {
      var i :| i in queue && Count(l, i) != n;
      var m :| 0 <= m < |queue| && queue[m] == i;
      var bs := SomeAnswersFail(l, queue, n, 0, {});
    }
  }

  /** A new announcement of idle pieces on a connection at rest.  Whatever the order of the answers within
      each piece, no piece is marked done with a block missing and none is left waiting for ever exactly if
      all announced pieces have as many blocks as the first: the requester counts the blocks of the first
      queued piece and keeps the number for those that follow. */
  lemma QueueServedIff(l: Local, queue: seq<int>)
    requires |l.conn.queue| == 0 && AboutTo(l.(conn := l.conn.(queue := queue)), queue, 0)
    ensures Enqueue(l, queue, queue).Handled?
    ensures AlwaysServed(Enqueue(l, queue, queue).value, queue)
       <==> forall i :: i in queue ==> Count(l, i) == Count(l, queue[0])
  {
    var l1 := AnnouncedQueue(l, queue);
    MidAlwaysServedIff(l1, queue, Count(l, queue[0]));
  }

  lemma AnnouncedQueue(l: Local, queue: seq<int>) returns (l1: Local)
    requires |l.conn.queue| == 0 && AboutTo(l.(conn := l.conn.(queue := queue)), queue, 0)
    ensures Enqueue(l, queue, queue) == Handled(l1) && Mid(l1, queue, Count(l, queue[0]), 0, {})
    ensures forall i :: Count(l1, i) == Count(l, i)
    ensures l1.shared.table.Keys == l.shared.table.Keys && l1.shared.finalizations == l.shared.finalizations
  {
    var l0 := l.(conn := l.conn.(queue := queue, announced := l.conn.announced + queue));
    var r := NewRequester(Count(l, queue[0]));
    assert OpenBlocks(r) == {};
    ReserveSaved(l.(conn := l.conn.(queue := queue)), l0, queue, 0);
    NextMid(l0, r, queue, Count(l, queue[0]), 0);
    NextIdleLaws(l0.shared.table, l0.conn.queue);
    l1 := RequestNext(l0, r).value;
  }
}
