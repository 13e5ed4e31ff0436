/** BITFIELD messages: announcing the finished pieces of a table and reading such an announcement. */
module BitfieldMessages {
  import opened Wrappers
  import opened Bytes
  import opened Pieces
  import opened Bitfields
  import opened PeerMessages

  function DoneSet(t: Table): set<int> {
    set i | i in t && t[i].status == Done
  }

  /** Pieces are stored under their own index. */
  ghost predicate Indexed(t: Table) {
    forall i :: i in t ==> t[i].idx == i && i >= 0
  }

  /** Bit `j` is set exactly for the members `j` of `s`. */
  ghost predicate Represents(bits: seq<bv8>, s: set<int>) {
    forall j: nat :: j / 8 < |bits| ==> (HasBit(bits, j) <==> j in s)
  }

  /** What `BuildPeerBitfieldMsg` comes back with for a table.  The buffer is sized for `max` bits, so the
      bit of piece `max` has no byte when `max` is a multiple of eight, and setting it panics. */
  ghost predicate BuildsBitfield(t: Table, r: Result<PeerMsg>) {
    var max := MaxIdx(t.Keys);
    if |t| == 0 then r.Err?
    else if max % 8 == 0 && max in DoneSet(t) then r.Panic?
    else r.Ok? && r.value.kind == Kind.Bitfield && |r.value.payload| == (max + 7) / 8
         && Represents(BitsOfPayload(r.value.payload), DoneSet(t))
  }

  method BuildPeerBitfieldMsg(pieces: SafePieces) returns (r: Result<PeerMsg>)
    requires Indexed(pieces.data)
    ensures BuildsBitfield(pieces.data, r)
  {
    var data := pieces.data;
    if |data| == 0 {
      return Err("ERR_PEERMSG_BUILD");
    }
    var max := pieces.MaxPieceIdx();
    var bitfield := new Bitfields.Bitfield(max);
    ZerosRepresentNothing((max + 7) / 8);
    var todo := data.Keys;
    while todo != {}
      invariant todo <= data.Keys && Marked(bitfield.bytes[..], data, todo)
      decreases todo
    {
      var k := NextKey(todo);
      if data[k].Downloaded() {
        OnlyMaxMayLackRoom(k, max);
        if data[k].idx / 8 >= bitfield.bytes.Length {
          return Panic;
        }
        MarkOne(bitfield.bytes[..], data, todo, k);
        bitfield.Set(data[k].idx);
      } else {
        assert DoneSet(data) - (todo - {k}) == DoneSet(data) - todo;
      }
      todo := todo - {k};
    }
    AllMarked(bitfield.bytes[..], data);
    BitsSurvivePayload(bitfield.bytes[..]);
    return Ok(PeerMsg(Kind.Bitfield, PayloadOfBits(bitfield.bytes[..])));
  }

  /** The bits of the finished pieces outside `todo` are set, and each of them has its byte. */
  ghost predicate Marked(bits: seq<bv8>, t: Table, todo: set<int>) {
    && Represents(bits, DoneSet(t) - todo)
    && forall i :: i in DoneSet(t) - todo ==> i / 8 < |bits|
  }

  lemma MarkOne(bits: seq<bv8>, t: Table, todo: set<int>, k: nat)
    requires Marked(bits, t, todo) && k in todo && k in DoneSet(t) && k / 8 < |bits|
    ensures Marked(SetBit(bits, k), t, todo - {k})
  {
    SetExtends(bits, DoneSet(t) - todo, k);
    assert DoneSet(t) - (todo - {k}) == (DoneSet(t) - todo) + {k};
  }

  lemma AllMarked(bits: seq<bv8>, t: Table)
    requires Marked(bits, t, {}) && Indexed(t) && |bits| == (MaxIdx(t.Keys) + 7) / 8
    ensures Represents(bits, DoneSet(t))
    ensures !(MaxIdx(t.Keys) % 8 == 0 && MaxIdx(t.Keys) in DoneSet(t))
  {
    assert DoneSet(t) - {} == DoneSet(t);
    OnlyMaxMayLackRoom(MaxIdx(t.Keys), MaxIdx(t.Keys));
  }

  lemma ZerosRepresentNothing(n: nat)
    ensures Represents(Zeros(n), {})
  {
    forall j: nat | j / 8 < n
      ensures !HasBit(Zeros(n), j)
    {
      ZeroHasNoBit(n, j);
    }
  }

  lemma OnlyMaxMayLackRoom(i: nat, max: nat)
    requires i <= max
    ensures i / 8 >= (max + 7) / 8 <==> i == max && max % 8 == 0
  {
  }

  lemma SetExtends(bits: seq<bv8>, s: set<int>, i: nat)
    requires Represents(bits, s) && i / 8 < |bits|
    ensures Represents(SetBit(bits, i), s + {i})
  {
    forall j: nat | j / 8 < |bits|
      ensures HasBit(SetBit(bits, i), j) <==> j in s + {i}
    {
      SetBitMeaning(bits, i, j);
    }
  }

  /** `GetPieceIndices`: the bits `0..=maxPieceIdx`.  The guard lets an index through that lies one past the
      last bit, and looking at that bit panics. */
  function PieceIndices(payload: seq<byte>, maxPieceIdx: nat): Result<seq<int>> {
    if maxPieceIdx > 8 * |payload| then Err("ERR_PEERMSG_BUILD")
    else if maxPieceIdx == 8 * |payload| then Panic
    else Ok(Indices(BitsOfPayload(payload), maxPieceIdx))
  }

  /** What is read from a payload: the set bits from zero to the largest index, in ascending order.  A payload
      that lacks more than one bit is answered with an error, one that lacks just one panics. */
  lemma PieceIndicesOutcome(payload: seq<byte>, maxPieceIdx: nat)
    ensures PieceIndices(payload, maxPieceIdx).Err? <==> maxPieceIdx > 8 * |payload|
    ensures PieceIndices(payload, maxPieceIdx).Panic? <==> maxPieceIdx == 8 * |payload|
    ensures maxPieceIdx < 8 * |payload| ==>
      var indices := PieceIndices(payload, maxPieceIdx).value;
      Ascending(indices) && forall i :: i in indices <==> 0 <= i <= maxPieceIdx && PayloadBit(payload, i)
  {
    if maxPieceIdx < 8 * |payload| {
      IndicesListTheSet(BitsOfPayload(payload), maxPieceIdx);
      forall i | 0 <= i <= maxPieceIdx
        ensures HasBit(BitsOfPayload(payload), i) <==> PayloadBit(payload, i)
      {
        BitIsPayloadBit(payload, i);
      }
    }
  }

  /** The payload built for a table has the bits of its finished pieces and no others. */
  lemma BuiltBits(t: Table, built: Result<PeerMsg>, i: nat)
    requires BuildsBitfield(t, built) && built.Ok? && i / 8 < |built.value.payload|
    ensures PayloadBit(built.value.payload, i) <==> i in t && t[i].status == Done
  {
    BitIsPayloadBit(built.value.payload, i);
  }

  method GetPieceIndices(payload: seq<byte>, maxPieceIdx: nat) returns (r: Result<seq<int>>)
    ensures r == PieceIndices(payload, maxPieceIdx)
  {
    var field := new Bitfields.Bitfield.FromBytes(payload);
    if maxPieceIdx > field.numOfBits {
      return Err("ERR_PEERMSG_BUILD");
    }
    if maxPieceIdx / 8 >= field.bytes.Length {
      return Panic;
    }
    var indices := field.AsIntSlice(maxPieceIdx);
    return Ok(indices);
  }

  /** Announcing a table and reading the announcement works exactly when the largest index is not a
      multiple of eight; it then gives the finished pieces, ascending and without repeats. */
  lemma BitfieldRoundTripIff(t: Table, built: Result<PeerMsg>)
    requires Indexed(t) && |t| > 0
    requires BuildsBitfield(t, built)
    ensures (built.Ok? && PieceIndices(built.value.payload, MaxIdx(t.Keys)).Ok?) <==> MaxIdx(t.Keys) % 8 != 0
    ensures MaxIdx(t.Keys) % 8 != 0 ==>
      var indices := PieceIndices(built.value.payload, MaxIdx(t.Keys)).value;
      Ascending(indices) && (forall x :: x in indices <==> x in DoneSet(t))
  {
    var max := MaxIdx(t.Keys);
    if max % 8 != 0 {
      var bits := BitsOfPayload(built.value.payload);
      IndicesListTheSet(bits, max);
      forall x
        ensures x in Indices(bits, max) <==> x in DoneSet(t)
      {
        if 0 <= x <= max {
          assert x / 8 < |bits|;
        }
      }
    }
  }
}
