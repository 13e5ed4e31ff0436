/** The download protocol as a step system: any number of connections over one shared piece table.
    Each message handler, and each misfire of a block request, is one step. */
module Protocol {
  import opened Wrappers
  import opened Bytes
  import opened Pieces
  import opened SliceUtil
  import opened PeerMessages
  import opened BitfieldMessages
  import opened FileInfos

  const ALLOWED_MISFIRES := 3

  /** The channel that tells a waiting request of its block's arrival; it is closed upon arrival. */
  datatype Channel = Open | Closed

  /** `waiting` holds the blocks whose request still waits for an answer or a time-out, by block index. */
  datatype Requester = Requester(total: int, blocksLeft: int, data: map<int, Channel>, waiting: map<int, Block>)

  /** `queue` to `sent` are the state of a connection; `sent` are the REQUEST messages written to it.  The rest
      is its history: the pieces put into its queue, oldest first, those it has reserved and not finished, the
      blocks for which REQUESTs are unanswered, and how many of the REQUESTs repeat an earlier one. */
  datatype Conn = Conn(peerId: string, queue: seq<int>, requester: Option<Requester>, misfires: nat, weak: bool,
                       sent: seq<PeerMsg>,
                       announced: seq<int>, inFlight: set<int>, owed: multiset<BlockId>, repeats: nat)

  /** What all connections share.  The rest is history: the pieces reserved and the blocks saved, oldest first,
      and how often the download has been finalised. */
  datatype Shared = Shared(table: Table, files: Files,
                           reservations: seq<int>, saved: seq<BlockId>, finalizations: nat)

  /** One connection's view. */
  datatype Local = Local(shared: Shared, conn: Conn)

  /** How a handler ends: normally, by returning an error, with a run-time panic, or blocked for ever. */
  datatype Outcome<+T> = Handled(value: T) | Rejected | Crashed | Stuck

  function NewRequester(total: nat): Requester {
    Requester(total, total, map[], map[])
  }

  function NewConn(peerId: string): Conn {
    Conn(peerId, [], None, 0, false, [], [], {}, multiset{}, 0)
  }

  // ---------- requesting ----------

  datatype Pick = Reserved(skipped: seq<int>, idx: int, rest: seq<int>) | Exhausted | Unknown(idx: int)

  /** Every index is known and its piece no longer idle. */
  ghost predicate AllTaken(table: Table, s: seq<int>) {
    forall i :: i in s ==> i in table && table[i].status != Idle
  }

  /** The first idle piece of a queue. */
  function NextIdle(table: Table, queue: seq<int>): (p: Pick)
    ensures p.Reserved? ==> p.idx in table
  {
    if |queue| == 0 then Exhausted
    else if queue[0] !in table then Unknown(queue[0])
    else if table[queue[0]].status == Idle then Reserved([], queue[0], queue[1..])
    else
      match NextIdle(table, queue[1..])
      case Reserved(skipped, i, rest) => Reserved([queue[0]] + skipped, i, rest)
      case p => p
  }

  ghost predicate FirstIdle(table: Table, queue: seq<int>, p: Pick) {
    match p
    case Reserved(skipped, i, rest) =>
      queue == skipped + [i] + rest && AllTaken(table, skipped) && i in table && table[i].status == Idle
    case Unknown(i) => i in queue && i !in table
    case Exhausted => AllTaken(table, queue)
  }

  /** What is skipped before the first idle piece is a prefix of pieces already taken, and the search comes
      up empty exactly when the whole queue is taken. */
  lemma {:induction false} NextIdleLaws(table: Table, queue: seq<int>)
    ensures FirstIdle(table, queue, NextIdle(table, queue))
    ensures NextIdle(table, queue).Exhausted? <==> AllTaken(table, queue)
  {
    if |queue| > 0 {
      var first, others := queue[0], queue[1..];
      assert queue == [first] + others;
      if first in table && table[first].status != Idle {
        NextIdleLaws(table, others);
        TakenPrefix(table, first, others);
        ExtendPick(table, first, others, NextIdle(table, others));
      }
    }
  }

  lemma ExtendPick(table: Table, first: int, others: seq<int>, p: Pick)
    requires first in table && table[first].status != Idle && FirstIdle(table, others, p)
    ensures FirstIdle(table, [first] + others, if p.Reserved? then Reserved([first] + p.skipped, p.idx, p.rest) else p)
  {
    if p.Reserved? {
      TakenPrefix(table, first, p.skipped);
      assert [first] + (p.skipped + [p.idx] + p.rest) == [first] + p.skipped + [p.idx] + p.rest;
    } else {
      TakenPrefix(table, first, others);
    }
  }

  lemma TakenPrefix(table: Table, first: int, others: seq<int>)
    requires first in table && table[first].status != Idle
    ensures AllTaken(table, [first] + others) <==> AllTaken(table, others)
  {
    if AllTaken(table, [first] + others) {
      forall x | x in others
        ensures x in table && table[x].status != Idle
      {
        assert x in [first] + others;
      }
    }
  }

  function BlockIdxs(blocks: seq<Block>): set<int> {
    set b | b in blocks :: b.idx
  }

  /** `request`: a fresh channel and a time-out that waits on it. */
  function RequestOne(r: Requester, b: Block): Requester {
    r.(data := r.data[b.idx := Open], waiting := r.waiting[b.idx := b])
  }

  function RequestAll(r: Requester, blocks: seq<Block>): Requester {
    if |blocks| == 0 then r else RequestOne(RequestAll(r, blocks[..|blocks| - 1]), blocks[|blocks| - 1])
  }

  function Requests(blocks: seq<Block>): (msgs: seq<PeerMsg>)
    ensures |msgs| == |blocks|
  {
    if |blocks| == 0 then []
    else Requests(blocks[..|blocks| - 1]) + [BuildPeerRequestMsg(blocks[|blocks| - 1])]
  }

  function Ids(blocks: seq<Block>): (ids: seq<BlockId>)
    ensures |ids| == |blocks| && forall i :: 0 <= i < |ids| ==> ids[i] == blocks[i].Id()
  {
    seq(|blocks|, i requires 0 <= i < |blocks| => blocks[i].Id())
  }

  /** A REQUEST message for each of the blocks is written to the connection. */
  function SendRequests(c: Conn, blocks: seq<Block>): Conn {
    c.(sent := c.sent + Requests(blocks), owed := c.owed + multiset(Ids(blocks)))
  }

  function ReserveFor(l: Local, r: Requester, i: int, rest: seq<int>): Local
    requires i in l.shared.table
  {
    var blocks := l.shared.table[i].blocks;
    Local(l.shared.(table := Reserve(l.shared.table, i, l.conn.peerId), reservations := l.shared.reservations + [i]),
          SendRequests(l.conn.(queue := rest, requester := Some(RequestAll(r, blocks)),
                               inFlight := l.conn.inFlight + {i}), blocks))
  }

  /** `RequestNextPiece`, with `r` as the connection's requester. */
  function RequestNext(l: Local, r: Requester): Outcome<Local> {
    match NextIdle(l.shared.table, l.conn.queue)
    case Unknown(_) => Crashed
    case Exhausted => Handled(l.(conn := l.conn.(queue := [], requester := Some(r))))
    case Reserved(_, i, rest) => Handled(ReserveFor(l, r, i, rest))
  }

  // ---------- announcements ----------

  /** The queue has grown to `queue`, at the end of which are `news`; if it was empty before, a new requester,
      counting the blocks of the first queued piece, replaces the old one and starts downloading. */
  function Enqueue(l: Local, queue: seq<int>, news: seq<int>): Outcome<Local>
    requires |queue| > 0
  {
    var l' := l.(conn := l.conn.(queue := queue, announced := l.conn.announced + news));
    if |l.conn.queue| > 0 then Handled(l')
    else if queue[0] !in l.shared.table then Crashed
    else RequestNext(l', NewRequester(l.shared.table[queue[0]].BlockCount()))
  }

  /** `handlePeerHaveMessage`. */
  function HaveStep(l: Local, payload: seq<byte>): Outcome<Local> {
    match HavePieceIdx(payload)
    case Ok(i) => if i in l.conn.queue then Handled(l) else Enqueue(l, l.conn.queue + [i], [i])
    case _ => Crashed
  }

  /** `handlePeerBitfieldMessage`. */
  ghost function BitfieldStep(l: Local, payload: seq<byte>): Outcome<Local> {
    match PieceIndices(payload, MaxIdx(l.shared.table.Keys))
    case Err(_) => Rejected
    case Panic => Crashed
    case Ok(indices) =>
      if |indices| == 0 then Handled(l)
      else
        MergedNotEmpty(l.conn.queue, indices);
        Enqueue(l, UniqueMerge(l.conn.queue, indices), Newcomers(l.conn.queue, indices))
  }

  lemma MergedNotEmpty(a: seq<int>, b: seq<int>)
    requires |b| > 0
    ensures |UniqueMerge(a, b)| > 0
  {
    MergeIntoGrows(MergeInto([], a), b);
  }

  // ---------- blocks ----------

  /** The block is saved, and one REQUEST for it answered. */
  function Accept(l: Local, b: Block): Local {
    Local(l.shared.(files := Save(l.shared.files, b), saved := l.shared.saved + [b.Id()]),
          l.conn.(owed := l.conn.owed - multiset{b.Id()}))
  }

  /** `onBlockReceive`. */
  function Receive(r: Requester, k: int): Requester {
    r.(data := r.data[k := Closed], blocksLeft := r.blocksLeft - 1, waiting := r.waiting - {k})
  }

  /** The download is finalised. */
  ghost function FinalizeWith(l: Local, r: Requester): Local {
    Local(l.shared.(files := Finalize(l.shared.files), finalizations := l.shared.finalizations + 1),
          l.conn.(requester := Some(r)))
  }

  /** The counter has reached zero: the requester is reset, the block's piece is done, and either the next
      piece is requested or the download is finalised. */
  ghost function CompletePiece(l: Local, r: Requester, p: int): Outcome<Local> {
    if p !in l.shared.table then Crashed
    else
      var r' := r.(blocksLeft := r.total);
      var table := Finish(l.shared.table, p);
      var l' := Local(l.shared.(table := table), l.conn.(inFlight := l.conn.inFlight - {p}));
      if |Undone(table)| != 0 then RequestNext(l', r')
      else Handled(FinalizeWith(l', r'))
  }

  /** `handlePeerPieceMessage` once the block is parsed.  Sending on the channel of a block never requested
      blocks, sending on a closed one panics. */
  ghost function BlockStep(l: Local, b: Block): Outcome<Local> {
    match l.conn.requester
    case None => Crashed
    case Some(r) =>
      if b.idx !in r.data then Stuck
      else if r.data[b.idx] == Closed then Crashed
      else
        var r' := Receive(r, b.idx);
        var l' := Accept(l, b);
        if r'.blocksLeft == 0 then CompletePiece(l', r', b.pieceIdx)
        else Handled(l'.(conn := l'.conn.(requester := Some(r'))))
  }

  ghost function PieceStep(l: Local, payload: seq<byte>): Outcome<Local> {
    match ReceivedBlock(payload)
    case Ok(b) => BlockStep(l, b)
    case Err(_) => Rejected
    case Panic => Crashed
  }

  /** A waiting request times out: it is sent again unless the connection has misfired too often. */
  function MisfireStep(l: Local, k: int): Outcome<Local> {
    if l.conn.requester.None? || k !in l.conn.requester.value.waiting then Rejected
    else
      var r, misfires := l.conn.requester.value, l.conn.misfires + 1;
      if misfires > ALLOWED_MISFIRES then
        Handled(l.(conn := l.conn.(misfires := misfires, weak := true,
                                   requester := Some(r.(waiting := r.waiting - {k})))))
      else
        Handled(l.(conn := SendRequests(l.conn.(misfires := misfires, repeats := l.conn.repeats + 1,
                                                requester := Some(r.(data := r.data[k := Open]))), [r.waiting[k]])))
  }

  // ---------- all connections ----------

  datatype World = World(shared: Shared, conns: seq<Conn>)

  datatype Event =
    | HaveMsg(conn: nat, payload: seq<byte>)
    | BitfieldMsg(conn: nat, payload: seq<byte>)
    | PieceMsg(conn: nat, payload: seq<byte>)
    | Misfire(conn: nat, block: int)

  ghost function LocalStep(l: Local, e: Event): Outcome<Local> {
    match e
    case HaveMsg(_, payload) => HaveStep(l, payload)
    case BitfieldMsg(_, payload) => BitfieldStep(l, payload)
    case PieceMsg(_, payload) => PieceStep(l, payload)
    case Misfire(_, k) => MisfireStep(l, k)
  }

  function At(w: World, c: nat): Local
    requires c < |w.conns|
  {
    Local(w.shared, w.conns[c])
  }

  function Replace(w: World, c: nat, l: Local): World
    requires c < |w.conns|
  {
    World(l.shared, w.conns[c := l.conn])
  }

  ghost function Step(w: World, e: Event): Outcome<World>
    requires e.conn < |w.conns|
  {
    match LocalStep(At(w, e.conn), e)
    case Handled(l) => Handled(Replace(w, e.conn, l))
    case Rejected => Rejected
    case Crashed => Crashed
    case Stuck => Stuck
  }

  /** A delivery as the other connections see it: one that is answered with an error, or for a connection that
      does not exist, changes nothing, and the client carries on. */
  ghost function Advance(w: World, e: Event): Outcome<World> {
    if e.conn >= |w.conns| || Step(w, e).Rejected? then Handled(w) else Step(w, e)
  }

  lemma AdvanceIsLocal(w: World, e: Event)
    requires e.conn < |w.conns|
    ensures LocalStep(At(w, e.conn), e).Handled? ==>
      Advance(w, e) == Handled(Replace(w, e.conn, LocalStep(At(w, e.conn), e).value))
    ensures LocalStep(At(w, e.conn), e).Rejected? ==> Advance(w, e) == Handled(w)
    ensures Advance(w, e).Handled? ==>
      LocalStep(At(w, e.conn), e).Handled? || LocalStep(At(w, e.conn), e).Rejected?
  {
  }
}
