/** What peers have announced, told from the messages alone. */
module ProtocolAnnouncements {
  import opened Wrappers
  import opened Bytes
  import opened Pieces
  import opened SliceUtil
  import opened Addressing
  import opened Bitfields
  import opened BitfieldMessages
  import opened PeerMessages
  import opened Protocol
  import opened ProtocolInvariant
  import opened ProtocolSteps
  import opened ProtocolOutcomes
  import opened ProtocolRuns
  import opened ProtocolReservations
  import opened ProtocolAccounts

  // ---------- one step ----------

  lemma EndsWithTail(s: seq<int>, tail: seq<int>, d: nat)
    requires NoDuplicates(tail) && EndsWith(s, tail) && d <= |tail|
    ensures NoDuplicates(tail[d..]) && EndsWith(s, tail[d..])
  {
    assert s[|s| - |tail[d..]|..] == s[|s| - |tail|..][d..];
  }

  lemma RequestNextHistory(l: Local, r: Requester)
    requires QueueHistory(l.conn) && RequestNext(l, r).Handled?
    ensures QueueHistory(RequestNext(l, r).value.conn)
    ensures RequestNext(l, r).value.conn.announced == l.conn.announced
  {
    var m := SomeStop(l.shared.table, l.conn.queue);
    RequestNextOutcome(l, r, m);
    EndsWithTail(l.conn.announced, l.conn.queue, if m < |l.conn.queue| then m + 1 else m);
  }

  lemma ReplyHistory(l: Local, payload: seq<byte>)
    requires QueueHistory(l.conn) && PieceStep(l, payload).Handled?
    ensures QueueHistory(PieceStep(l, payload).value.conn)
    ensures PieceStep(l, payload).value.conn.announced == l.conn.announced
  {
    var b := ReceivedBlock(payload).value;
    var r := Receive(l.conn.requester.value, b.idx);
    if r.blocksLeft == 0 && |Undone(Between(l, b).shared.table)| != 0 {
      RequestNextHistory(Between(l, b), r.(blocksLeft := r.total));
    }
  }

  lemma GrownHistory(c: Conn, news: seq<int>)
    requires QueueHistory(c) && NoDuplicates(c.queue + news)
    ensures QueueHistory(c.(queue := c.queue + news, announced := c.announced + news))
  {
    var announced, queue, d := c.announced + news, c.queue + news, |c.announced| - |c.queue|;
    assert c.announced == c.announced[..d] + c.queue;
    assert announced == c.announced[..d] + queue;
    assert announced[|announced| - |queue|..] == queue;
  }

  lemma NewsAreDistinct(l: Local, e: Event, news: seq<int>)
    requires NoDuplicates(l.conn.queue) && NewPieces(l, e, news)
    ensures NoDuplicates(l.conn.queue + news)
  {
    forall i | 0 <= i < |news|
      ensures news[i] !in l.conn.queue
    {
      assert news[i] in news;
    }
  }

  lemma AnnouncementHistory(l: Local, e: Event, news: seq<int>)
    requires (e.HaveMsg? || e.BitfieldMsg?) && LocalStep(l, e).Handled?
    requires QueueHistory(l.conn) && NewPieces(l, e, news)
    ensures QueueHistory(LocalStep(l, e).value.conn)
    ensures LocalStep(l, e).value.conn.announced == l.conn.announced + news
  {
    var queue, c := l.conn.queue + news, l.conn.(queue := l.conn.queue + news, announced := l.conn.announced + news);
    AnnouncementMeetsTable(l, e);
    AnnouncementEnqueues(l, e, news);
    NewsAreDistinct(l, e, news);
    GrownHistory(l.conn, news);
    if |news| == 0 {
      assert news == [];
    } else if |l.conn.queue| == 0 {
      RequestNextHistory(l.(conn := c), NewRequester(l.shared.table[queue[0]].BlockCount()));
    }
  }

  /** Whatever happens, the queue stays the end of what has been put into it; and what is put into it over time
      are the pieces named by announcements. */
  lemma StepHistory(l: Local, e: Event)
    requires QueueHistory(l.conn) && LocalStep(l, e).Handled?
    ensures var c := LocalStep(l, e).value.conn;
      && QueueHistory(c) && l.conn.announced <= c.announced
      && forall i :: i in c.announced <==> i in l.conn.announced || Names(e, MaxIdx(l.shared.table.Keys), i)
  {
    match e
    case PieceMsg(_, payload) => ReplyHistory(l, payload);
    case Misfire(_, _) =>
    case _ =>
      AnnouncementMeetsTable(l, e);
      var news := SomeNews(l, e);
      AnnouncementHistory(l, e, news);
      QueuedIsAnnounced(l.conn);
      assert forall i :: Names(e, MaxIdx(l.shared.table.Keys), i) ==> i in news || i in l.conn.queue;
  }

  /** A BITFIELD that is handled, bit by bit: every piece of the table whose bit is set has been put into the queue
      by then, and is in it still if the queue was not empty.  Nothing is lost from what was put in before, and a
      queue that was not empty is extended at its end. */
  lemma BitfieldIsTakenIn(l: Local, c: nat, payload: seq<byte>, i: nat)
    requires QueueHistory(l.conn) && LocalStep(l, BitfieldMsg(c, payload)).Handled?
    requires i <= MaxIdx(l.shared.table.Keys)
    ensures i / 8 < |payload|
    ensures var c' := LocalStep(l, BitfieldMsg(c, payload)).value.conn;
      && l.conn.announced <= c'.announced
      && (PayloadBit(payload, i) ==> i in c'.announced)
      && (|l.conn.queue| > 0 ==> l.conn.queue <= c'.queue && (PayloadBit(payload, i) ==> i in c'.queue))
  {
    var e := BitfieldMsg(c, payload);
    AnnouncementMeetsTable(l, e);
    StepHistory(l, e);
    var news := SomeNews(l, e);
    var m := SomeStop(l.shared.table, news);
    AnnouncementOutcome(l, e, news, m);
    if PayloadBit(payload, i) {
      assert Names(e, MaxIdx(l.shared.table.Keys), i);
      assert i in news || i in l.conn.queue;
    }
  }

  // ---------- runs ----------

  /** Some message on connection `c` names piece `i` of a table of `n` pieces. */
  ghost predicate Named(es: seq<Event>, c: nat, n: nat, i: int) {
    exists e :: e in es && e.conn == c && Names(e, n - 1, i)
  }

  lemma NamedFirst(es: seq<Event>, c: nat, n: nat)
    requires |es| > 0
    ensures forall i :: Named(es, c, n, i) <==> (es[0].conn == c && Names(es[0], n - 1, i)) || Named(es[1..], c, n, i)
  {
    var e, rest := es[0], es[1..];
    assert es == [e] + rest && e in es;
    forall i | Named(rest, c, n, i)
      ensures Named(es, c, n, i)
    {
      var f :| f in rest && f.conn == c && Names(f, n - 1, i);
      assert f in es;
    }
  }

  ghost predicate AllHistories(w: World) {
    forall c :: 0 <= c < |w.conns| ==> QueueHistory(w.conns[c])
  }

  lemma AdvanceHistory(w: World, e: Event, c: nat)
    requires AllHistories(w) && Advance(w, e).Handled? && c < |w.conns|
    ensures var w' := Advance(w, e).value;
      && AllHistories(w') && |w'.conns| == |w.conns|
      && forall i :: i in w'.conns[c].announced
           <==> i in w.conns[c].announced || (e.conn == c && Names(e, MaxIdx(w.shared.table.Keys), i))
  {
    if e.conn < |w.conns| {
      AdvanceIsLocal(w, e);
      if LocalStep(At(w, e.conn), e).Handled? {
        StepHistory(At(w, e.conn), e);
      } else {
        RejectedNamesNothing(At(w, e.conn), e);
      }
    }
  }

  lemma RejectedNamesNothing(l: Local, e: Event)
    requires LocalStep(l, e).Rejected?
    ensures forall i :: !Names(e, MaxIdx(l.shared.table.Keys), i)
  {
    if (e.HaveMsg? || e.BitfieldMsg?) && MeetsTable(l, e) {
      AnnouncementIsNotRejected(l, e);
    }
  }

  lemma AnnouncementIsNotRejected(l: Local, e: Event)
    requires (e.HaveMsg? || e.BitfieldMsg?) && MeetsTable(l, e)
    ensures !LocalStep(l, e).Rejected?
  {
    if e.BitfieldMsg? {
      PieceIndicesOutcome(e.payload, MaxIdx(l.shared.table.Keys));
    }
  }

  /** What has been added to `a` to make `b` are the pieces named on connection `c`. */
  ghost predicate GrewByNames(a: seq<int>, b: seq<int>, es: seq<Event>, c: nat, n: nat) {
    forall i :: i in b <==> i in a || Named(es, c, n, i)
  }

  lemma GrewFromFirst(a: seq<int>, a1: seq<int>, b: seq<int>, es: seq<Event>, c: nat, n: nat)
    requires |es| > 0 && GrewByNames(a1, b, es[1..], c, n)
    requires forall i :: i in a1 <==> i in a || (es[0].conn == c && Names(es[0], n - 1, i))
    ensures GrewByNames(a, b, es, c, n)
  {
    NamedFirst(es, c, n);
  }

  lemma {:induction false} RunHistory(w: World, es: seq<Event>, c: nat, n: nat)
    requires AllHistories(w) && LogSound(w.shared) && Run(w, es).Handled? && c < |w.conns|
    requires n == MaxIdx(w.shared.table.Keys) + 1
    ensures var w' := Run(w, es).value;
      && AllHistories(w') && |w'.conns| == |w.conns|
      && GrewByNames(w.conns[c].announced, w'.conns[c].announced, es, c, n)
    decreases |es|
  {
    if |es| > 0 {
      var w1 := Advance(w, es[0]).value;
      AdvanceHistory(w, es[0], c);
      AdvanceForward(w, es[0]);
      RunHistory(w1, es[1..], c, n);
      GrewFromFirst(w.conns[c].announced, w1.conns[c].announced, Run(w, es).value.conns[c].announced, es, c, n);
    }
  }

  /** Whatever the messages and whenever they come: a piece has been put into the queue of a connection exactly if
      a HAVE or BITFIELD on that connection named it.  The queue holds nothing twice, and it is the end of what
      was put into it: what was put in later comes out later. */
  lemma AnnouncedIffNamed(t: Torrent, w0: World, es: seq<Event>, w: World, c: nat)
    requires t.Valid() && Initial(t, w0) && Run(w0, es) == Handled(w) && c < |w0.conns|
    ensures c < |w.conns| && QueueHistory(w.conns[c])
    ensures forall i :: i in w.conns[c].announced <==> Named(es, c, t.pieces, i)
  {
    LargestIndex(t, w0.shared.table);
    RunHistory(w0, es, c, t.pieces);
  }

  // ---------- disciplined runs ----------

  /** No piece that a message named is forgotten: it is in the table, it is in the connection's queue while nobody
      has reserved it, and if nothing is in flight on the connection it has been reserved. */
  lemma NamedNotForgotten(t: Torrent, w0: World, es: seq<Event>, w: World, c: nat, i: int)
    requires t.Valid() && Initial(t, w0) && LeadsTo(t, w0, es, w) && c < |w0.conns| && Named(es, c, t.pieces, i)
    ensures c < |w.conns| && i in w.shared.table
    ensures w.shared.table[i].status == Idle ==> i in w.conns[c].queue
    ensures w.conns[c].inFlight == {} ==> w.shared.table[i].status != Idle
  {
    AnnouncedIffNamed(t, w0, es, w, c);
    AnnouncedNotForgotten(t, w0, es, w);
  }

  ghost predicate NamedBySome(es: seq<Event>, conns: nat, n: nat, i: int) {
    exists c :: 0 <= c < conns && Named(es, c, n, i)
  }

  /** The messages on `conns` connections name every piece of the torrent. */
  ghost predicate AllNamed(t: Torrent, es: seq<Event>, conns: nat) {
    forall i :: 0 <= i < t.pieces ==> NamedBySome(es, conns, t.pieces, i)
  }

  /** When nothing is in flight every piece that a message named is done; if every piece of the torrent has been
      named on some connection, the download is complete. */
  lemma NamedAreFinished(t: Torrent, w0: World, es: seq<Event>, w: World)
    requires t.Valid() && Initial(t, w0) && LeadsTo(t, w0, es, w) && Quiescent(w)
    ensures forall c, i :: 0 <= c < |w0.conns| && Named(es, c, t.pieces, i) ==>
      i in w.shared.table && w.shared.table[i].status == Done
    ensures AllNamed(t, es, |w0.conns|) ==> w.shared.finalizations == 1 && w.shared.files.finalFile == Some(t.content)
  {
    QuiescenceMeansFinished(t, w0, es, w);
    forall c, i | 0 <= c < |w0.conns| && Named(es, c, t.pieces, i)
      ensures c < |w.conns| && i in w.conns[c].announced
    {
      AnnouncedIffNamed(t, w0, es, w, c);
    }
    if AllNamed(t, es, |w0.conns|) {
      forall i | 0 <= i < t.pieces
        ensures Announced(w, i)
      {
        assert NamedBySome(es, |w0.conns|, t.pieces, i);
        var c :| 0 <= c < |w0.conns| && Named(es, c, t.pieces, i);
        assert i in w.conns[c].announced;
      }
    }
  }
}
