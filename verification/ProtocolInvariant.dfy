/** What holds between any two steps of the protocol on a uniform torrent. */
module ProtocolInvariant {
  import opened Wrappers
  import opened Pieces
  import opened SliceUtil
  import opened Addressing
  import opened BlockNames
  import opened FileInfos
  import opened Assembly
  import opened Protocol

  // ---------- the shared part ----------

  /** The pieces and blocks of the torrent, with whatever status. */
  ghost predicate TableOk(t: Torrent, table: Table)
    requires t.Valid()
  {
    && (forall i :: i in table <==> 0 <= i < t.pieces)
    && (forall i :: i in table ==> table[i].idx == i)
    && forall i :: 0 <= i < t.pieces ==> t.UniformBlocks(i, table[i].blocks)
  }

  ghost predicate DoneSaved(t: Torrent, table: Table, dir: Directory)
    requires t.Valid()
  {
    forall p, k :: t.HasBlock(p, k) && p in table && table[p].status == Done ==> Saved(t, dir, p, k)
  }

  ghost predicate OnlyBlockNames(t: Torrent, dir: Directory)
    requires t.Valid()
  {
    forall name :: name in dir ==> IsBlockName(t, name)
  }

  /** No block of a piece that nobody has reserved is in the directory. */
  ghost predicate IdleAbsent(t: Torrent, table: Table, dir: Directory)
    requires t.Valid()
  {
    forall p, k :: t.HasBlock(p, k) && p in table && table[p].status == Idle ==> BlockName(p, k) !in dir
  }

  /** Before the last piece is done the finished file does not exist and the directory collects blocks;
      from then on the file is there, complete, and finalisation has happened once. */
  ghost predicate FilesOk(t: Torrent, s: Shared)
    requires t.Valid()
  {
    if AllDone(s.table) then s.files == Files(map[], Some(t.content), true) && s.finalizations == 1
    else
      && s.files.finalFile == None && !s.files.isSeeding && s.finalizations == 0
      && DoneSaved(t, s.table, s.files.blocksDir)
      && OnlyBlockNames(t, s.files.blocksDir)
      && IdleAbsent(t, s.table, s.files.blocksDir)
  }

  /** The log of reservations: no piece twice, and exactly the pieces that are no longer idle. */
  ghost predicate LogOk(s: Shared) {
    && NoDuplicates(s.reservations)
    && forall i :: i in s.reservations <==> i in s.table && s.table[i].status != Idle
  }

  ghost predicate SharedOk(t: Torrent, s: Shared)
    requires t.Valid()
  {
    TableOk(t, s.table) && FilesOk(t, s) && LogOk(s)
  }

  // ---------- one connection ----------

  ghost predicate EndsWith(s: seq<int>, tail: seq<int>) {
    |tail| <= |s| && s[|s| - |tail|..] == tail
  }

  /** The queue has no duplicates, is what remains of the announcements in the order in which they were made,
      names known pieces only, and still holds every announced piece that is idle. */
  ghost predicate QueueOk(table: Table, c: Conn) {
    && NoDuplicates(c.queue)
    && EndsWith(c.announced, c.queue)
    && (forall i :: i in c.announced ==> i in table)
    && forall i :: i in c.announced && table[i].status == Idle ==> i in c.queue
  }

  /** At most one piece is in flight, and it is being downloaded. */
  ghost predicate InFlightOk(table: Table, c: Conn) {
    && (forall p :: p in c.inFlight ==> p in table && table[p].status == Downloading)
    && forall p, q :: p in c.inFlight && q in c.inFlight ==> p == q
  }

  /** With nothing in flight nothing is queued, unless the download is over. */
  ghost predicate NoneForgotten(table: Table, c: Conn) {
    c.inFlight == {} ==> |c.queue| == 0 || AllDone(table)
  }

  function OpenBlocks(r: Requester): set<int> {
    set k | k in r.data && r.data[k] == Open
  }

  ghost predicate KeysAre(r: Requester, n: nat) {
    forall k :: k in r.data <==> 0 <= k < n
  }

  /** While a piece is in flight the counter equals the number of its blocks still missing, which is not
      zero, and only missing blocks are waited for. */
  ghost predicate Counting(r: Requester, n: nat) {
    && r.total == n && KeysAre(r, n)
    && r.blocksLeft == |OpenBlocks(r)| && r.blocksLeft > 0
    && r.waiting.Keys <= OpenBlocks(r)
  }

  ghost predicate AtRest(r: Requester) {
    OpenBlocks(r) == {} && r.waiting == map[]
  }

  ghost predicate RequesterOk(t: Torrent, c: Conn) {
    if c.inFlight == {} then c.requester.Some? ==> AtRest(c.requester.value)
    else c.requester.Some? && Counting(c.requester.value, t.blocksPerPiece)
  }

  /** Of a piece in flight exactly the received blocks are in the directory, with their right content. */
  ghost predicate ReceivedSaved(t: Torrent, dir: Directory, c: Conn)
    requires t.Valid() && RequesterOk(t, c)
  {
    forall p, k :: t.HasBlock(p, k) && p in c.inFlight ==>
      if c.requester.value.data[k] == Closed then Saved(t, dir, p, k) else BlockName(p, k) !in dir
  }

  function Waiting(c: Conn): set<int> {
    if c.requester.Some? then c.requester.value.waiting.Keys else {}
  }

  function Excess(misfires: nat): nat {
    if misfires > ALLOWED_MISFIRES then misfires - ALLOWED_MISFIRES else 0
  }

  /** A block is asked for again after each of the first three misfires and never after that; every request
      still waiting and every misfire beyond the third belongs to a first request of its own. */
  ghost predicate MisfiresOk(c: Conn) {
    && c.repeats == (if c.misfires < ALLOWED_MISFIRES then c.misfires else ALLOWED_MISFIRES)
    && (c.weak <==> c.misfires > ALLOWED_MISFIRES)
    && |Waiting(c)| + Excess(c.misfires) + c.repeats <= |c.sent|
  }

  ghost predicate ConnOk(t: Torrent, s: Shared, c: Conn)
    requires t.Valid()
  {
    && QueueOk(s.table, c) && InFlightOk(s.table, c) && NoneForgotten(s.table, c)
    && RequesterOk(t, c) && ReceivedSaved(t, s.files.blocksDir, c)
    && MisfiresOk(c)
  }

  ghost predicate LocalOk(t: Torrent, l: Local)
    requires t.Valid()
  {
    SharedOk(t, l.shared) && ConnOk(t, l.shared, l.conn)
  }

  // ---------- all connections ----------

  /** No piece is in flight on two connections. */
  ghost predicate Exclusive(conns: seq<Conn>) {
    forall c, d, p ::
      0 <= c < |conns| && 0 <= d < |conns| && p in conns[c].inFlight && p in conns[d].inFlight ==> c == d
  }

  /** A piece being downloaded is in flight on some connection. */
  ghost predicate Owned(w: World) {
    forall p :: p in w.shared.table && w.shared.table[p].status == Downloading ==>
      exists c :: 0 <= c < |w.conns| && p in w.conns[c].inFlight
  }

  ghost predicate Inv(t: Torrent, w: World) {
    && t.Valid()
    && SharedOk(t, w.shared)
    && (forall c :: 0 <= c < |w.conns| ==> ConnOk(t, w.shared, w.conns[c]))
    && Exclusive(w.conns)
    && Owned(w)
  }

  lemma ConnectionIsOk(t: Torrent, w: World, c: nat)
    requires Inv(t, w) && c < |w.conns|
    ensures LocalOk(t, At(w, c))
  {
    assert ConnOk(t, w.shared, w.conns[c]);
  }

  // ---------- what one connection's step does to the shared part ----------

  /** The only status changes: an idle piece becomes in flight here, or a piece in flight here is done. */
  ghost predicate StatusMoves(a: Table, b: Table, before: set<int>, after: set<int>) {
    && a.Keys == b.Keys
    && (forall i :: i in a && i in after && i !in before ==> a[i].status == Idle && b[i].status == Downloading)
    && (forall i :: i in a && i in before && i !in after ==> b[i].status == Done)
    && (forall i :: i in a && (i in before <==> i in after) ==> b[i].status == a[i].status)
    && (forall i :: i in a && a[i].status != Idle ==> b[i].downloader == a[i].downloader)
  }

  /** Blocks of pieces that are not in flight here keep their files, until the files are assembled. */
  ghost predicate FilesMove(t: Torrent, a: Shared, b: Shared, before: set<int>)
    requires t.Valid()
  {
    AllDone(b.table) ||
    forall p, k :: t.HasBlock(p, k) && p !in before ==>
      (BlockName(p, k) in b.files.blocksDir <==> BlockName(p, k) in a.files.blocksDir)
      && (Saved(t, a.files.blocksDir, p, k) ==> Saved(t, b.files.blocksDir, p, k))
  }

  ghost predicate Moves(t: Torrent, a: Shared, b: Shared, before: set<int>, after: set<int>)
    requires t.Valid()
  {
    StatusMoves(a.table, b.table, before, after) && FilesMove(t, a, b, before)
  }

  // ---------- other connections are not disturbed ----------

  lemma OthersQueue(a: Table, b: Table, before: set<int>, after: set<int>, d: Conn)
    requires StatusMoves(a, b, before, after) && QueueOk(a, d)
    requires forall p :: p in before && p in a ==> a[p].status != Idle
    ensures QueueOk(b, d)
  {
    forall i | i in d.announced && b[i].status == Idle
      ensures i in d.queue
    {
      assert i in a && a[i].status == Idle;
    }
  }

  lemma OthersInFlight(a: Table, b: Table, before: set<int>, after: set<int>, d: Conn)
    requires StatusMoves(a, b, before, after) && InFlightOk(a, d)
    requires before !! d.inFlight
    ensures InFlightOk(b, d)
  {
    forall p | p in d.inFlight
      ensures p in b && b[p].status == Downloading
    {
      assert p in a && a[p].status == Downloading;
    }
  }

  lemma AllDoneStays(a: Table, b: Table, before: set<int>, after: set<int>)
    requires StatusMoves(a, b, before, after) && AllDone(a)
    ensures AllDone(b)
  {
    forall i | i in b
      ensures b[i].status == Done
    {
      assert i in a && a[i].status == Done;
    }
  }

  lemma OthersFiles(t: Torrent, a: Shared, b: Shared, before: set<int>, d: Conn)
    requires t.Valid() && FilesMove(t, a, b, before) && RequesterOk(t, d) && ReceivedSaved(t, a.files.blocksDir, d)
    requires before !! d.inFlight && (AllDone(b.table) ==> d.inFlight == {})
    ensures ReceivedSaved(t, b.files.blocksDir, d)
  {
    forall p, k | t.HasBlock(p, k) && p in d.inFlight
      ensures if d.requester.value.data[k] == Closed then Saved(t, b.files.blocksDir, p, k)
              else BlockName(p, k) !in b.files.blocksDir
    {
      assert p !in before;
    }
  }

  lemma OthersUndisturbed(t: Torrent, a: Shared, b: Shared, before: set<int>, after: set<int>, d: Conn)
    requires t.Valid() && Moves(t, a, b, before, after) && ConnOk(t, a, d)
    requires before !! d.inFlight
    requires forall p :: p in before && p in a.table ==> a.table[p].status == Downloading
    ensures ConnOk(t, b, d)
  {
    OthersQueue(a.table, b.table, before, after, d);
    OthersInFlight(a.table, b.table, before, after, d);
    if AllDone(a.table) {
      AllDoneStays(a.table, b.table, before, after);
    }
    if AllDone(b.table) {
      InFlightNotDone(b.table, d);
    }
    OthersFiles(t, a, b, before, d);
  }

  lemma InFlightNotDone(table: Table, d: Conn)
    requires AllDone(table) && InFlightOk(table, d)
    ensures d.inFlight == {}
  {
    forall p
      ensures p !in d.inFlight
    {
    }
  }

  lemma OthersOk(t: Torrent, w: World, c: nat, l: Local, d: nat)
    requires Inv(t, w) && c < |w.conns| && d < |w.conns| && c != d
    requires Moves(t, w.shared, l.shared, w.conns[c].inFlight, l.conn.inFlight)
    ensures ConnOk(t, l.shared, w.conns[d])
  {
    var before, other := w.conns[c].inFlight, w.conns[d].inFlight;
    assert ConnOk(t, w.shared, w.conns[c]) && ConnOk(t, w.shared, w.conns[d]);
    assert before !! other by {
      forall p | p in before
        ensures p !in other
      {
      }
    }
    OthersUndisturbed(t, w.shared, l.shared, before, l.conn.inFlight, w.conns[d]);
  }

  /** A step that is right for its own connection is right for all. */
  lemma LocalToGlobal(t: Torrent, w: World, c: nat, l: Local)
    requires Inv(t, w) && c < |w.conns|
    requires LocalOk(t, l) && Moves(t, w.shared, l.shared, w.conns[c].inFlight, l.conn.inFlight)
    ensures Inv(t, Replace(w, c, l))
  {
    var w' := Replace(w, c, l);
    forall d | 0 <= d < |w.conns|
      ensures ConnOk(t, w'.shared, w'.conns[d])
    {
      if d != c {
        OthersOk(t, w, c, l, d);
      }
    }
    ExclusiveAfter(t, w, c, l);
    OwnedAfter(t, w, c, l);
  }

  lemma ExclusiveAfter(t: Torrent, w: World, c: nat, l: Local)
    requires Inv(t, w) && c < |w.conns|
    requires Moves(t, w.shared, l.shared, w.conns[c].inFlight, l.conn.inFlight) && LocalOk(t, l)
    ensures Exclusive(Replace(w, c, l).conns)
  {
    var conns := Replace(w, c, l).conns;
    forall d, p | 0 <= d < |conns| && d != c && p in conns[d].inFlight
      ensures p !in l.conn.inFlight
    {
      assert ConnOk(t, w.shared, w.conns[d]);
      assert w.shared.table[p].status == Downloading;
    }
  }

  lemma OwnedAfter(t: Torrent, w: World, c: nat, l: Local)
    requires Inv(t, w) && c < |w.conns|
    requires Moves(t, w.shared, l.shared, w.conns[c].inFlight, l.conn.inFlight)
    ensures Owned(Replace(w, c, l))
  {
    var w' := Replace(w, c, l);
    forall p | p in l.shared.table && l.shared.table[p].status == Downloading
      ensures exists d :: 0 <= d < |w'.conns| && p in w'.conns[d].inFlight
    {
      if p in l.conn.inFlight {
        assert p in w'.conns[c].inFlight;
      } else {
        assert w.shared.table[p].status == Downloading;
        var d :| 0 <= d < |w.conns| && p in w.conns[d].inFlight;
        assert p in w'.conns[d].inFlight;
      }
    }
  }
}
