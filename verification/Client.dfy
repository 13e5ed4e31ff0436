/** The client: all its connections over one set of files, updated in place by one delivery at a time. */
module Clients {
  import opened Addressing
  import opened FileInfos
  import opened Protocol
  import opened ProtocolInvariant
  import opened ProtocolExactness
  import opened Handlers

  ghost function Requesters(conns: seq<PeerConnection>): set<BlockRequester>
    reads conns
  {
    set c | c in conns && c.blockRequester != null :: c.blockRequester
  }

  class Client {
    const fileInfo: FileInfo
    const conns: seq<PeerConnection>

    /** The connections share the files and nothing else. */
    ghost predicate Valid()
      reads conns
    {
      && (forall c :: 0 <= c < |conns| ==> conns[c].fileInfo == fileInfo)
      && (forall c, d :: 0 <= c < d < |conns| ==> conns[c] != conns[d])
      && forall c, d :: 0 <= c < d < |conns| && conns[c].blockRequester != null ==>
           conns[c].blockRequester != conns[d].blockRequester
    }

    ghost function ConnAt(c: nat): Conn
      requires c < |conns|
      reads conns[c], conns[c].blockRequester
    {
      conns[c].View()
    }

    ghost function View(): World
      reads fileInfo, fileInfo.pieces, conns, Requesters(conns)
    {
      World(SharedView(),
            seq(|conns|, c requires 0 <= c < |conns| reads conns, Requesters(conns) => ConnAt(c)))
    }

    constructor (fileInfo: FileInfo, conns: seq<PeerConnection>)
      requires forall c :: 0 <= c < |conns| ==> conns[c].fileInfo == fileInfo && conns[c].blockRequester == null
      requires forall c, d :: 0 <= c < d < |conns| ==> conns[c] != conns[d]
      ensures Valid() && this.fileInfo == fileInfo && this.conns == conns
    {
      this.fileInfo := fileInfo;
      this.conns := conns;
    }

    ghost function SharedView(): Shared
      reads fileInfo, fileInfo.pieces
    {
      Shared(fileInfo.pieces.data, fileInfo.View(), fileInfo.pieces.reservations, fileInfo.saved,
             fileInfo.finalizations)
    }

    /** The other connections share no object with the one that has changed. */
    twostate lemma OthersUnchanged(c: nat)
      requires c < |conns| && old(Valid())
      requires forall d :: 0 <= d < |conns| && d != c ==>
        unchanged(conns[d]) && (conns[d].blockRequester != null ==> unchanged(conns[d].blockRequester))
      ensures forall d :: 0 <= d < |conns| && d != c ==> ConnAt(d) == old(ConnAt(d))
    {
    }

    /** When only one connection has changed, so has the client's state only there. */
    twostate lemma OnlyOneChanged(c: nat)
      requires c < |conns|
      requires forall d :: 0 <= d < |conns| && d != c ==> ConnAt(d) == old(ConnAt(d))
      ensures View() == World(SharedView(), old(View()).conns[c := ConnAt(c)])
    {
    }

    /** One delivery, whatever it is: the client's state moves as the step system says. */
    method Deliver(e: Event) returns (end: Ending)
      requires Valid() && e.conn < |conns|
      modifies fileInfo, fileInfo.pieces, conns[e.conn], conns[e.conn].blockRequester
      ensures Valid()
      ensures Ends(end, Step(old(View()), e), old(View()), View())
    {
      end := conns[e.conn].Handle(e);
      OthersUnchanged(e.conn);
      OnlyOneChanged(e.conn);
      StepFromLocal(old(View()), e, end, conns[e.conn].LocalView(), View());
    }

    /** A disciplined delivery succeeds, unless it is answered with an error that changes nothing, and keeps
        the invariant of all runs. */
    method DeliverDisciplined(ghost t: Torrent, e: Event) returns (end: Ending)
      requires Valid() && e.conn < |conns| && Inv(t, View()) && Disciplined(t, At(View(), e.conn), e)
      modifies fileInfo, fileInfo.pieces, conns[e.conn], conns[e.conn].blockRequester
      ensures Valid() && (end == Returned || end == Failed)
      ensures Advance(old(View()), e) == Handled(View()) && Inv(t, View())
    {
      DisciplinedAdvance(t, View(), e);
      end := Deliver(e);
    }
  }

  lemma StepFromLocal(w: World, e: Event, end: Ending, l: Local, w': World)
    requires e.conn < |w.conns| && w' == Replace(w, e.conn, l)
    requires Ends(end, LocalStep(At(w, e.conn), e), At(w, e.conn), l)
    ensures Ends(end, Step(w, e), w, w')
  {
    assert Replace(w, e.conn, At(w, e.conn)) == w;
  }
}
