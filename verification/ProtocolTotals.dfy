/** Sums over connections. */
module ProtocolTotals {
  import opened Protocol

  ghost function Total(conns: seq<Conn>, f: Conn -> int): int {
    if |conns| == 0 then 0 else Total(conns[..|conns| - 1], f) + f(conns[|conns| - 1])
  }

  lemma {:induction false} TotalUpdate(conns: seq<Conn>, f: Conn -> int, c: nat, conn: Conn)
    requires c < |conns|
    ensures Total(conns[c := conn], f) == Total(conns, f) - f(conns[c]) + f(conn)
  {
    var n := |conns| - 1;
    if c < n {
      assert conns[c := conn][..n] == conns[..n][c := conn];
      TotalUpdate(conns[..n], f, c, conn);
    } else {
      assert conns[c := conn][..n] == conns[..n];
    }
  }

  lemma {:induction false} TotalOfZeros(conns: seq<Conn>, f: Conn -> int)
    requires forall c :: 0 <= c < |conns| ==> f(conns[c]) == 0
    ensures Total(conns, f) == 0
  {
    if |conns| > 0 {
      TotalOfZeros(conns[..|conns| - 1], f);
    }
  }

  lemma {:induction false} TotalIsNatural(conns: seq<Conn>, f: Conn -> int)
    requires forall c :: 0 <= c < |conns| ==> f(conns[c]) >= 0
    ensures Total(conns, f) >= 0
    ensures Total(conns, f) == 0 ==> forall c :: 0 <= c < |conns| ==> f(conns[c]) == 0
  {
    if |conns| > 0 {
      TotalIsNatural(conns[..|conns| - 1], f);
    }
  }
}
