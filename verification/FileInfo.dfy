/** Block files, their assembly into the finished file, and reading blocks back from it. */
module FileInfos {
  import opened Wrappers
  import opened Bytes
  import opened Pieces
  import opened PeerMessages
  import opened BlockNames
  import opened Addressing

  // ---------- directories ----------

  ghost predicate Sorted(names: seq<string>) {
    forall i, j :: 0 <= i < j < |names| ==> LexLess(names[i], names[j])
  }

  ghost predicate Lists(names: seq<string>, s: set<string>) {
    Sorted(names) && forall x :: x in names <==> x in s
  }

  function Insert(x: string, names: seq<string>): seq<string> {
    if |names| == 0 then [x]
    else if LexLess(x, names[0]) then [x] + names
    else [names[0]] + Insert(x, names[1..])
  }

  lemma {:induction false} InsertKeepsSorted(x: string, names: seq<string>)
    requires Sorted(names) && x !in names
    ensures Sorted(Insert(x, names))
    ensures forall y :: y in Insert(x, names) <==> y == x || y in names
  {
    if |names| > 0 {
      if LexLess(x, names[0]) {
        forall j | 0 <= j < |names|
          ensures LexLess(x, names[j])
        {
          if j > 0 {
            LexTransitive(x, names[0], names[j]);
          }
        }
      } else {
        InsertKeepsSorted(x, names[1..]);
        LexTotal(x, names[0]);
        var r := Insert(x, names[1..]);
        forall j | 0 <= j < |r|
          ensures LexLess(names[0], r[j])
        {
          assert r[j] in r;
        }
      }
    }
  }

  /** Two sorted listings of the same names are the same. */
  lemma {:induction false} ListingIsUnique(a: seq<string>, b: seq<string>, s: set<string>)
    requires Lists(a, s) && Lists(b, s)
    ensures a == b
  {
    EmptyTogether(a, b, s);
    if |a| > 0 {
      HeadIsLeast(a, b, s);
      HeadIsLeast(b, a, s);
      LexTotal(a[0], b[0]);
      TailLists(a, s);
      TailLists(b, s);
      ListingIsUnique(a[1..], b[1..], s - {a[0]});
    }
  }

  lemma EmptyTogether(a: seq<string>, b: seq<string>, s: set<string>)
    requires Lists(a, s) && Lists(b, s)
    ensures |a| == 0 <==> |b| == 0
  {
    if |a| > 0 {
      assert a[0] in a;
    }
    if |b| > 0 {
      assert b[0] in b;
    }
  }

  lemma HeadIsLeast(a: seq<string>, b: seq<string>, s: set<string>)
    requires Lists(a, s) && Lists(b, s) && |a| > 0 && |b| > 0
    ensures !LexLess(b[0], a[0])
  {
    assert b[0] in a;
    var i :| 0 <= i < |a| && a[i] == b[0];
    LexIrreflexive(a[0]);
    if i > 0 && LexLess(b[0], a[0]) {
      LexTransitive(a[0], a[i], a[0]);
    }
  }

  lemma TailLists(a: seq<string>, s: set<string>)
    requires Lists(a, s) && |a| > 0
    ensures Lists(a[1..], s - {a[0]})
  {
    LexIrreflexive(a[0]);
    assert a == [a[0]] + a[1..];
    forall x
      ensures x in a[1..] <==> x in s - {a[0]}
    {
      if x in a[1..] {
        var i :| 0 <= i < |a[1..]| && a[1..][i] == x;
        assert LexLess(a[0], a[i + 1]);
      }
    }
  }

  /** The names of a directory in the order in which their files are assembled. */
  ghost function Listing(s: set<string>): (names: seq<string>)
    ensures Lists(names, s)
  {
    if s == {} then []
    else
      var x := Choose(s);
      InsertKeepsSorted(x, Listing(s - {x}));
      Insert(x, Listing(s - {x}))
  }

  type Directory = map<string, seq<byte>>

  ghost predicate AllIn(names: seq<string>, dir: Directory) {
    forall i :: 0 <= i < |names| ==> names[i] in dir
  }

  lemma AllListed(dir: Directory)
    ensures AllIn(Listing(dir.Keys), dir)
  {
    forall i | 0 <= i < |Listing(dir.Keys)|
      ensures Listing(dir.Keys)[i] in dir
    {
      assert Listing(dir.Keys)[i] in Listing(dir.Keys);
    }
  }

  ghost function Concatenate(dir: Directory, names: seq<string>): seq<byte>
    requires AllIn(names, dir)
  {
    if |names| == 0 then [] else Concatenate(dir, names[..|names| - 1]) + dir[names[|names| - 1]]
  }

  ghost function Assembled(dir: Directory): seq<byte> {
    AllListed(dir);
    Concatenate(dir, Listing(dir.Keys))
  }

  /** `dir` after the files not in `names` have been removed. */
  ghost predicate Remaining(now: Directory, dir: Directory, names: seq<string>) {
    && (forall x :: x in now <==> x in names)
    && forall x :: x in now ==> x in dir && now[x] == dir[x]
  }

  // ---------- the files of one torrent ----------

  datatype Files = Files(blocksDir: Directory, finalFile: Option<seq<byte>>, isSeeding: bool)

  function Save(f: Files, b: Block): Files {
    f.(blocksDir := f.blocksDir[BlockName(b.pieceIdx, b.idx) := b.buff])
  }

  /** `DefaultFinalizeFunc`: assemble unless the finished file exists already, and start seeding. */
  ghost function Finalize(f: Files): Files {
    if f.finalFile.Some? then f.(isSeeding := true)
    else Files(map[], Some(Assembled(f.blocksDir)), true)
  }

  /** One read of `n` bytes at position `seek`: past the end it fails, across the end it comes back short
      and leaves the buffer's zeros. */
  function ReadAt(file: seq<byte>, seek: int, n: nat): Result<seq<byte>> {
    if seek < 0 then Err("ERR_FILEINFO_READ_DOWNLOADED_DATA")
    else if n == 0 then Ok([])
    else if seek >= |file| then Err("ERR_FILEINFO_READ_DOWNLOADED_DATA")
    else if seek + n <= |file| then Ok(file[seek..seek + n])
    else Ok(file[seek..] + seq(seek + n - |file|, _ => 0))
  }

  /** `FileInfo.GetBlock`; `Ok(None)` stands for the nil block. */
  function FindBlock(t: Table, f: Files, pieceIdx: int, begin: nat, length: nat): Result<Option<Block>> {
    if pieceIdx !in t then Ok(None)
    else if length == 0 then Panic
    else match t[pieceIdx].GetBlockFromOffset(begin, length)
         case None => Ok(None)
         case Some(b) =>
           if !f.isSeeding then Ok(Some(b))
           else if f.finalFile.None? then Err("ERR_FILEINFO_READ_DOWNLOADED_DATA")
           else
             var seek := SeekLocation(t[pieceIdx].idx, b.idx, t[pieceIdx].BlockCount(), b.length);
             match ReadAt(f.finalFile.value, seek, b.length)
             case Ok(buff) => Ok(Some(b.(buff := buff)))
             case Err(e) => Err(e)
             case Panic => Panic
  }

  /** `handlePeerRequestMessage`: the PIECE message sent in answer to a REQUEST.  Asking for a block that
      is not found makes the builder dereference a nil block. */
  function Answer(t: Table, f: Files, requestPayload: seq<byte>): Result<PeerMsg> {
    match RequestedBlock(requestPayload)
    case Err(e) => Err(e)
    case Panic => Panic
    case Ok(b) =>
      match FindBlock(t, f, b.pieceIdx, b.begin, b.length)
      case Err(e) => Err(e)
      case Panic => Panic
      case Ok(None) => Panic
      case Ok(Some(full)) => Ok(BuildPeerPieceMsg(full))
  }

  class FileInfo {
    var blocksDir: Directory
    var finalFile: Option<seq<byte>>
    var isSeeding: bool
    const pieces: SafePieces
    /** How often the download has been finalised. */
    ghost var finalizations: nat
    /** The blocks saved so far, oldest first. */
    ghost var saved: seq<BlockId>

    constructor (pieces: SafePieces, finalFile: Option<seq<byte>>, isSeeding: bool)
      ensures this.pieces == pieces && View() == Files(map[], finalFile, isSeeding)
      ensures finalizations == 0 && saved == []
    {
      this.finalizations := 0;
      this.saved := [];
      this.pieces := pieces;
      this.blocksDir := map[];
      this.finalFile := finalFile;
      this.isSeeding := isSeeding;
    }

    function View(): Files
      reads this
    {
      Files(blocksDir, finalFile, isSeeding)
    }

    method SaveBlock(b: Block)
      modifies this`blocksDir, this`saved
      ensures View() == Save(old(View()), b) && saved == old(saved) + [b.Id()]
    {
      saved := saved + [b.Id()];
      blocksDir := blocksDir[BlockName(b.pieceIdx, b.idx) := b.buff];
    }

    method GetBlock(pieceIdx: int, begin: nat, length: nat) returns (r: Result<Option<Block>>)
      ensures r == FindBlock(pieces.data, View(), pieceIdx, begin, length)
    {
      if pieceIdx !in pieces.data {
        return Ok(None);
      }
      var p := pieces.data[pieceIdx];
      if length == 0 {
        return Panic;
      }
      var b := p.GetBlockFromOffset(begin, length);
      if b.None? {
        return Ok(None);
      }
      if isSeeding {
        if finalFile.None? {
          return Err("ERR_FILEINFO_READ_DOWNLOADED_DATA");
        }
        var seekLoc := p.idx * p.BlockCount() + b.value.idx;
        seekLoc := seekLoc * b.value.length;
        var buff := ReadAt(finalFile.value, seekLoc, b.value.length);
        if buff.Err? {
          return Err(buff.error);
        }
        return Ok(Some(b.value.(buff := buff.value)));
      }
      return Ok(b);
    }

    /** The names are sorted and the files appended to the output one after the other and removed. */
    method AssembleBlocks()
      requires finalFile.None?
      modifies this`blocksDir, this`finalFile
      ensures View() == Files(map[], Some(Assembled(old(blocksDir))), old(isSeeding))
    {
      ghost var dir := blocksDir;
      AllListed(dir);
      var sortedChunkPaths := SortedNames(blocksDir);
      var output: seq<byte> := [];
      for i := 0 to |sortedChunkPaths|
        modifies this`blocksDir
        invariant Remaining(blocksDir, dir, sortedChunkPaths[i..])
        invariant output == Concatenate(dir, sortedChunkPaths[..i])
      {
        var chunkPath := sortedChunkPaths[i];
        CopyStep(blocksDir, dir, sortedChunkPaths, i);
        output := output + blocksDir[chunkPath];
        blocksDir := blocksDir - {chunkPath};
      }
      assert sortedChunkPaths[..|sortedChunkPaths|] == sortedChunkPaths;
      assert blocksDir == map[];
      finalFile := Some(output);
    }

    method DefaultFinalizeFunc()
      modifies this`blocksDir, this`finalFile, this`isSeeding, this`finalizations
      ensures View() == Finalize(old(View())) && finalizations == old(finalizations) + 1
    {
      finalizations := finalizations + 1;
      if finalFile.None? {
        AssembleBlocks();
      }
      isSeeding := true;
    }
  }

  lemma NotAfterItself(names: seq<string>, i: nat)
    requires Sorted(names) && i < |names|
    ensures names[i] in names[i..] && names[i] !in names[i + 1..]
    ensures forall x :: x in names[i..] <==> x == names[i] || x in names[i + 1..]
  {
    assert names[i..] == [names[i]] + names[i + 1..];
    LexIrreflexive(names[i]);
    forall j | i < j < |names|
      ensures names[j] != names[i]
    {
      assert LexLess(names[i], names[j]);
    }
  }

  lemma CopyStep(now: Directory, dir: Directory, names: seq<string>, i: nat)
    requires Sorted(names) && AllIn(names, dir) && i < |names| && Remaining(now, dir, names[i..])
    ensures names[i] in now
    ensures Remaining(now - {names[i]}, dir, names[i + 1..])
    ensures Concatenate(dir, names[..i + 1]) == Concatenate(dir, names[..i]) + now[names[i]]
  {
    NotAfterItself(names, i);
    assert names[..i + 1][..i] == names[..i];
  }

  /** The names of a directory, read in no particular order and then sorted. */
  method SortedNames(dir: Directory) returns (names: seq<string>)
    ensures names == Listing(dir.Keys)
  {
    names := [];
    var entries := dir.Keys;
    while entries != {}
      invariant entries <= dir.Keys
      invariant Lists(names, dir.Keys - entries)
      decreases entries
    {
      var name := NextKey(entries);
      InsertKeepsSorted(name, names);
      names := Insert(name, names);
      assert dir.Keys - (entries - {name}) == (dir.Keys - entries) + {name};
      entries := entries - {name};
    }
    assert dir.Keys - {} == dir.Keys;
    ListingIsUnique(names, Listing(dir.Keys), dir.Keys);
  }
}
