/** What comes of assembling a directory of blocks that were saved in any order and any number of times. */
module Copies {
  import opened SliceUtil
  import opened Cardinality
  import opened Pieces
  import opened Arithmetic
  import opened Addressing
  import opened BlockNames
  import opened FileInfos
  import opened Assembly

  /** The directory holds the blocks of the list, each with its right content, and nothing else. */
  ghost predicate HoldsCopies(t: Torrent, dir: Directory, saved: seq<BlockId>)
    requires t.Valid()
  {
    && (forall id :: id in saved ==> t.HasBlock(id.pieceIdx, id.idx) && Saved(t, dir, id.pieceIdx, id.idx))
    && forall name :: name in dir ==> exists id :: id in saved && name == BlockName(id.pieceIdx, id.idx)
  }

  lemma DistinctNames(t: Torrent, a: BlockId, b: BlockId)
    requires t.Valid() && t.HasBlock(a.pieceIdx, a.idx) && t.HasBlock(b.pieceIdx, b.idx)
    ensures BlockName(a.pieceIdx, a.idx) == BlockName(b.pieceIdx, b.idx) <==> a == b
  {
    IndicesAreSmall(t, a.pieceIdx, a.idx);
    IndicesAreSmall(t, b.pieceIdx, b.idx);
    NamesAreDistinct(a.pieceIdx, a.idx, b.pieceIdx, b.idx);
  }

  lemma SaveCopy(t: Torrent, dir: Directory, saved: seq<BlockId>, p: int, k: int)
    requires t.Valid() && t.HasBlock(p, k) && HoldsCopies(t, dir, saved)
    ensures HoldsCopies(t, dir[BlockName(p, k) := t.Chunk(p, k)], saved + [BlockId(p, k)])
  {
    var dir', saved' := dir[BlockName(p, k) := t.Chunk(p, k)], saved + [BlockId(p, k)];
    forall id | id in saved
      ensures Saved(t, dir', id.pieceIdx, id.idx)
    {
      DistinctNames(t, id, BlockId(p, k));
    }
    forall name | name in dir'
      ensures exists id :: id in saved' && name == BlockName(id.pieceIdx, id.idx)
    {
      if name == BlockName(p, k) {
        assert BlockId(p, k) in saved';
      } else {
        var id :| id in saved && name == BlockName(id.pieceIdx, id.idx);
        assert id in saved';
      }
    }
  }

  // ---------- how many files ----------

  ghost predicate NamesOf(ids: set<BlockId>, names: set<string>) {
    forall name :: name in names <==> exists id :: id in ids && name == BlockName(id.pieceIdx, id.idx)
  }

  lemma {:induction false} OneNameEach(t: Torrent, ids: set<BlockId>, names: set<string>)
    requires t.Valid() && NamesOf(ids, names) && forall id :: id in ids ==> t.HasBlock(id.pieceIdx, id.idx)
    ensures |names| == |ids|
    decreases |ids|
  {
    if |ids| == 0 {
      assert names == {};
    } else {
      var a := Choose(ids);
      var name := BlockName(a.pieceIdx, a.idx);
      assert name in names;
      assert NamesOf(ids - {a}, names - {name}) by {
        forall id | id in ids && id != a
          ensures BlockName(id.pieceIdx, id.idx) != name
        {
          DistinctNames(t, id, a);
        }
      }
      OneNameEach(t, ids - {a}, names - {name});
    }
  }

  lemma ListingSize(s: set<string>)
    ensures |Listing(s)| == |s|
  {
    var names := Listing(s);
    forall i, j | 0 <= i < j < |names|
      ensures names[i] != names[j]
    {
      LexIrreflexive(names[i]);
      assert LexLess(names[i], names[j]);
    }
    DistinctCount(names);
    assert Elements(names) == s;
  }

  lemma {:induction false} ConcatenatedSize(dir: Directory, names: seq<string>, b: nat)
    requires AllIn(names, dir) && forall i :: 0 <= i < |names| ==> |dir[names[i]]| == b
    ensures |Concatenate(dir, names)| == |names| * b
  {
    if |names| > 0 {
      ConcatenatedSize(dir, names[..|names| - 1], b);
      MulSucc(|names|, b);
    }
  }

  lemma AssembledSize(t: Torrent, dir: Directory, saved: seq<BlockId>)
    requires t.Valid() && HoldsCopies(t, dir, saved)
    ensures |Assembled(dir)| == |Elements(saved)| * t.blockLength
  {
    assert NamesOf(Elements(saved), dir.Keys);
    OneNameEach(t, Elements(saved), dir.Keys);
    ListingSize(dir.Keys);
    AllListed(dir);
    var names := Listing(dir.Keys);
    forall i | 0 <= i < |names|
      ensures |dir[names[i]]| == t.blockLength
    {
      var id :| id in saved && names[i] == BlockName(id.pieceIdx, id.idx);
      assert Saved(t, dir, id.pieceIdx, id.idx);
    }
    ConcatenatedSize(dir, names, t.blockLength);
  }

  // ---------- when the file is complete ----------

  /** All blocks of the torrent, in the order of the file. */
  function WalkIds(t: Torrent): (ids: seq<BlockId>)
    requires t.Valid()
    ensures |ids| == t.pieces * t.blocksPerPiece
  {
    MulMonotone(0, t.pieces, t.blocksPerPiece);
    seq(t.pieces * t.blocksPerPiece, m requires 0 <= m => BlockId(m / t.blocksPerPiece, m % t.blocksPerPiece))
  }

  lemma WalkIdsAreDistinct(t: Torrent)
    requires t.Valid()
    ensures NoDuplicates(WalkIds(t))
  {
    forall m, n | 0 <= m < n < |WalkIds(t)|
      ensures WalkIds(t)[m] != WalkIds(t)[n]
    {
      DivMod(m, t.blocksPerPiece);
      DivMod(n, t.blocksPerPiece);
    }
  }

  lemma InWalk(t: Torrent, p: int, k: int)
    requires t.Valid() && t.HasBlock(p, k)
    ensures BlockId(p, k) in WalkIds(t)
  {
    var c := t.blocksPerPiece;
    MulMonotone(0, p, c);
    MulStrict(p, t.pieces, c);
    QuotientUnique(p, k, c);
    assert WalkIds(t)[p * c + k] == BlockId(p, k);
  }

  /** As many different blocks as the torrent has are all its blocks. */
  lemma AllBlocksSaved(t: Torrent, saved: seq<BlockId>, p: int, k: int)
    requires t.Valid() && t.HasBlock(p, k) && NoDuplicates(saved) && |saved| == t.pieces * t.blocksPerPiece
    requires forall id :: id in saved ==> t.HasBlock(id.pieceIdx, id.idx)
    ensures BlockId(p, k) in saved
  {
    WalkIdsAreDistinct(t);
    DistinctCount(WalkIds(t));
    DistinctCount(saved);
    forall id | id in saved
      ensures id in WalkIds(t)
    {
      InWalk(t, id.pieceIdx, id.idx);
    }
    SubsetSize(Elements(saved), Elements(WalkIds(t)));
    InWalk(t, p, k);
    assert BlockId(p, k) in Elements(saved);
  }

  /** After as many replies as the torrent has blocks, the assembled file is the torrent's content exactly if
      no block came twice; otherwise it is shorter by a block for each that came again. */
  lemma CompleteIffDistinct(t: Torrent, dir: Directory, saved: seq<BlockId>)
    requires t.Valid() && HoldsCopies(t, dir, saved) && |saved| == t.pieces * t.blocksPerPiece
    ensures |Assembled(dir)| == |Elements(saved)| * t.blockLength
    ensures Assembled(dir) == t.content <==> NoDuplicates(saved)
  {
    AssembledSize(t, dir, saved);
    DistinctCount(saved);
    if NoDuplicates(saved) {
      forall p, k | t.HasBlock(p, k)
        ensures Saved(t, dir, p, k)
      {
        AllBlocksSaved(t, saved, p, k);
      }
      forall name | name in dir
        ensures IsBlockName(t, name)
      {
        var id :| id in saved && name == BlockName(id.pieceIdx, id.idx);
        assert t.HasBlock(id.pieceIdx, id.idx);
      }
      AssembledIsContent(t, dir);
    } else {
      MulAssociative(t.pieces, t.blocksPerPiece, t.blockLength);
      MulStrict(|Elements(saved)|, |saved|, t.blockLength);
    }
  }
}
