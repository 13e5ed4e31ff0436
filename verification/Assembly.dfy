/** Why sorting file names and concatenating restores the file. */
module Assembly {
  import opened Bytes
  import opened Arithmetic
  import opened Addressing
  import opened BlockNames
  import opened FileInfos

  /** The name under which block `k` of piece `p` lies in the directory. */
  predicate Saved(t: Torrent, dir: Directory, p: int, k: int)
    requires t.Valid() && t.HasBlock(p, k)
  {
    BlockName(p, k) in dir && dir[BlockName(p, k)] == t.Chunk(p, k)
  }

  ghost predicate IsBlockName(t: Torrent, name: string) {
    exists p, k :: t.HasBlock(p, k) && name == BlockName(p, k)
  }

  /** Every block of the torrent is saved under its own name, and nothing else is. */
  ghost predicate HoldsExactly(t: Torrent, dir: Directory)
    requires t.Valid()
  {
    && (forall p, k :: t.HasBlock(p, k) ==> Saved(t, dir, p, k))
    && forall name :: name in dir ==> IsBlockName(t, name)
  }

  lemma IndicesAreSmall(t: Torrent, p: int, k: int)
    requires t.Valid() && t.HasBlock(p, k)
    ensures 0 <= p < INDEX_BOUND && 0 <= k < INDEX_BOUND
  {
    MulMonotoneRight(t.blocksPerPiece, 1, t.blockLength);
  }

  /** The name of the `m`-th block in the walk over all blocks. */
  function NameAt(t: Torrent, m: nat): string
    requires t.Valid()
  {
    BlockName(m / t.blocksPerPiece, m % t.blocksPerPiece)
  }

  function WalkNames(t: Torrent): (names: seq<string>)
    requires t.Valid()
    ensures |names| == t.pieces * t.blocksPerPiece
  {
    MulMonotone(0, t.pieces, t.blocksPerPiece);
    seq(t.pieces * t.blocksPerPiece, m requires 0 <= m => NameAt(t, m))
  }

  lemma BlockAt(t: Torrent, m: nat)
    requires t.Valid() && m < t.pieces * t.blocksPerPiece
    ensures t.HasBlock(m / t.blocksPerPiece, m % t.blocksPerPiece)
    ensures t.Offset(m / t.blocksPerPiece, m % t.blocksPerPiece) == m * t.blockLength
  {
    var c := t.blocksPerPiece;
    DivMod(m, c);
    PieceOfPosition(t.pieces, c, m);
    MulAssociative(m / c, c, t.blockLength);
    MulSplit(m / c * c, m % c, t.blockLength);
  }

  lemma WalkNamesSorted(t: Torrent)
    requires t.Valid()
    ensures Sorted(WalkNames(t))
  {
    forall m, n | 0 <= m < n < |WalkNames(t)|
      ensures LexLess(WalkNames(t)[m], WalkNames(t)[n])
    {
      WalkNamesAscend(t, m, n);
    }
  }

  lemma WalkNamesAscend(t: Torrent, m: nat, n: nat)
    requires t.Valid() && m < n < t.pieces * t.blocksPerPiece
    ensures LexLess(NameAt(t, m), NameAt(t, n))
  {
    var c := t.blocksPerPiece;
    BlockAt(t, m);
    BlockAt(t, n);
    IndicesAreSmall(t, m / c, m % c);
    IndicesAreSmall(t, n / c, n % c);
    DivMod(m, c);
    DivMod(n, c);
    if n / c < m / c {
      MulStrict(n / c, m / c, c);
    }
    NamesSortAsIndices(m / c, m % c, n / c, n % c);
  }

  lemma NameInWalk(t: Torrent, p: int, k: int)
    requires t.Valid() && t.HasBlock(p, k)
    ensures BlockName(p, k) in WalkNames(t)
  {
    var c := t.blocksPerPiece;
    MulMonotone(0, p, c);
    MulStrict(p, t.pieces, c);
    QuotientUnique(p, k, c);
    assert WalkNames(t)[p * c + k] == BlockName(p, k);
  }

  /** The sorted listing of a complete directory is the walk over all blocks. */
  lemma ListingIsWalk(t: Torrent, dir: Directory)
    requires t.Valid() && HoldsExactly(t, dir)
    ensures Listing(dir.Keys) == WalkNames(t)
  {
    WalkNamesSorted(t);
    forall name
      ensures name in WalkNames(t) <==> name in dir.Keys
    {
      if name in WalkNames(t) {
        var m :| 0 <= m < |WalkNames(t)| && WalkNames(t)[m] == name;
        BlockAt(t, m);
        assert Saved(t, dir, m / t.blocksPerPiece, m % t.blocksPerPiece);
      }
      if name in dir {
        var p, k :| t.HasBlock(p, k) && name == BlockName(p, k);
        NameInWalk(t, p, k);
      }
    }
    ListingIsUnique(Listing(dir.Keys), WalkNames(t), dir.Keys);
  }

  /** File number `m` of a listing holds the `b` bytes of the content from `m * b` on. */
  ghost predicate HoldsAt(dir: Directory, names: seq<string>, content: seq<byte>, b: nat, m: nat)
    requires m < |names|
  {
    var x := m * b;
    0 <= x && x + b <= |content| && names[m] in dir && dir[names[m]] == content[x..x + b]
  }

  lemma SavedAt(t: Torrent, dir: Directory, m: nat)
    requires t.Valid() && HoldsExactly(t, dir) && m < t.pieces * t.blocksPerPiece
    ensures HoldsAt(dir, WalkNames(t), t.content, t.blockLength, m)
  {
    BlockAt(t, m);
    var p, k := m / t.blocksPerPiece, m % t.blocksPerPiece;
    t.OffsetInRange(p, k);
    assert Saved(t, dir, p, k);
  }

  lemma {:induction false} ConcatenatesToPrefix(dir: Directory, names: seq<string>, content: seq<byte>, b: nat, n: nat)
    requires n <= |names| && AllIn(names, dir)
    requires forall m :: 0 <= m < n ==> HoldsAt(dir, names, content, b, m)
    ensures AllIn(names[..n], dir)
    ensures 0 <= n * b <= |content| && Concatenate(dir, names[..n]) == content[..n * b]
  {
    if n > 0 {
      ConcatenatesToPrefix(dir, names, content, b, n - 1);
      assert names[..n][..n - 1] == names[..n - 1];
      MulSucc(n, b);
      var x := (n - 1) * b;
      assert HoldsAt(dir, names, content, b, n - 1);
      assert content[..x] + content[x..x + b] == content[..x + b];
    }
  }

  /** Assembling a directory that holds exactly the blocks of a torrent gives its content. */
  lemma AssembledIsContent(t: Torrent, dir: Directory)
    requires t.Valid() && HoldsExactly(t, dir)
    ensures Assembled(dir) == t.content
  {
    var n, names := t.pieces * t.blocksPerPiece, WalkNames(t);
    ListingIsWalk(t, dir);
    AllListed(dir);
    forall m | 0 <= m < n
      ensures HoldsAt(dir, names, t.content, t.blockLength, m)
    {
      SavedAt(t, dir, m);
    }
    ConcatenatesToPrefix(dir, names, t.content, t.blockLength, n);
    MulAssociative(t.pieces, t.blocksPerPiece, t.blockLength);
    TakeAll(names);
    TakeAll(t.content);
  }

  lemma TakeAll<T>(s: seq<T>)
    ensures s[..|s|] == s
  {
  }
}
