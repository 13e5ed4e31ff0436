/** The bitfield of downloaded pieces.  Bit `i` is bit `i % 8`, counted from the least significant end,
    of byte `i / 8`. */
module Bitfields {
  import opened Bytes

  predicate HasBit(bits: seq<bv8>, i: nat)
    requires i / 8 < |bits|
  {
    bits[i / 8] & (1 << (i % 8)) != 0
  }

  function SetBit(bits: seq<bv8>, i: nat): (r: seq<bv8>)
    requires i / 8 < |bits|
    ensures |r| == |bits|
  {
    bits[i / 8 := bits[i / 8] | (1 << (i % 8))]
  }

  function Zeros(n: nat): (r: seq<bv8>)
    ensures |r| == n
  {
    seq(n, _ => 0)
  }

  /** Every index falls into one of the first `n` bytes. */
  ghost predicate Fit(indices: seq<nat>, n: nat) {
    forall k :: 0 <= k < |indices| ==> indices[k] / 8 < n
  }

  /** The result of calling `Set` for each index of `indices` in turn. */
  ghost function SetAll(bits: seq<bv8>, indices: seq<nat>): (r: seq<bv8>)
    requires Fit(indices, |bits|)
    ensures |r| == |bits|
  {
    if indices == [] then bits
    else SetBit(SetAll(bits, indices[..|indices| - 1]), indices[|indices| - 1])
  }

  /** The indices `0..=max` whose bit is set. */
  function Indices(bits: seq<bv8>, max: int): seq<int>
    requires max < 8 * |bits|
    decreases max + 1
  {
    if max < 0 then [] else Indices(bits, max - 1) + (if HasBit(bits, max) then [max] else [])
  }

  function ToBits(b: byte): bv8 { (b as int) as bv8 }

  function OfBits(v: bv8): byte { (v as int) as byte }

  function BitsOfPayload(payload: seq<byte>): (r: seq<bv8>)
    ensures |r| == |payload|
  {
    seq(|payload|, i requires 0 <= i < |payload| => ToBits(payload[i]))
  }

  function PayloadOfBits(bits: seq<bv8>): (r: seq<byte>)
    ensures |r| == |bits|
  {
    seq(|bits|, i requires 0 <= i < |bits| => OfBits(bits[i]))
  }

  /** The value of bit `k` of a byte, counted from the low end. */
  function Weight(k: nat): (w: nat)
    requires k < 8
    ensures w > 0
  {
    if k == 0 then 1 else if k == 1 then 2 else if k == 2 then 4 else if k == 3 then 8
    else if k == 4 then 16 else if k == 5 then 32 else if k == 6 then 64 else 128
  }

  /** Bit `i` of a payload: in byte `i / 8`, the bit of weight 2 to the power `i % 8`. */
  predicate PayloadBit(payload: seq<byte>, i: nat)
    requires i / 8 < |payload|
  {
    payload[i / 8] as int / Weight(i % 8) % 2 == 1
  }

  lemma HalfIsShift(v: bv8)
    ensures (v >> 1) as int == v as int / 2
  {
  }

  lemma LowBitIsOdd(v: bv8)
    ensures v & 1 != 0 <==> v as int % 2 == 1
  {
  }

  lemma ShiftByOneMore(v: bv8, k: nat)
    requires 0 < k < 8
    ensures v >> k == (v >> (k - 1)) >> 1
  {
  }

  lemma BitIsLowAfterShift(v: bv8, k: nat)
    requires k < 8
    ensures v & (1 << k) != 0 <==> (v >> k) & 1 != 0
  {
  }

  lemma {:induction false} ShiftDivides(v: bv8, k: nat)
    requires k < 8
    ensures (v >> k) as int == v as int / Weight(k)
  {
    if k > 0 {
      ShiftDivides(v, k - 1);
      ShiftByOneMore(v, k);
      HalfIsShift(v >> (k - 1));
      HalvedAgain(v as int, k);
    } else {
      assert v >> 0 == v;
    }
  }

  lemma HalvedAgain(x: nat, k: nat)
    requires 0 < k < 8
    ensures x / Weight(k - 1) / 2 == x / Weight(k)
  {
  }

  /** The bits by which payloads are read and written are the bits of that arithmetic. */
  lemma BitIsPayloadBit(payload: seq<byte>, i: nat)
    requires i / 8 < |payload|
    ensures HasBit(BitsOfPayload(payload), i) <==> PayloadBit(payload, i)
  {
    var b := payload[i / 8];
    BitIsLowAfterShift(ToBits(b), i % 8);
    ShiftDivides(ToBits(b), i % 8);
    LowBitIsOdd(ToBits(b) >> (i % 8));
    SameNumber(b);
  }

  lemma SameNumber(b: byte)
    ensures ToBits(b) as int == b as int
  {
    var v := WithNumber(b as int);
    BvRoundTrip(v);
  }

  lemma NextNumber(v: bv8)
    requires v as int < 255
    ensures (v + 1) as int == v as int + 1
  {
  }

  lemma {:induction false} WithNumber(x: nat) returns (v: bv8)
    requires x < 256
    ensures v as int == x
  {
    if x == 0 {
      v := 0;
    } else {
      v := WithNumber(x - 1);
      NextNumber(v);
      v := v + 1;
    }
  }

  lemma BitsSurvivePayload(bits: seq<bv8>)
    ensures BitsOfPayload(PayloadOfBits(bits)) == bits
  {
    forall i | 0 <= i < |bits|
      ensures BitsOfPayload(PayloadOfBits(bits))[i] == bits[i]
    {
      BvRoundTrip(bits[i]);
    }
  }

  lemma BvRoundTrip(v: bv8)
    ensures ToBits(OfBits(v)) == v
  {
    assert (v as int) as bv8 == v;
  }

  lemma OrSetsOneBit(b: bv8, i: int, j: int)
    requires 0 <= i < 8 && 0 <= j < 8
    ensures ((b | (1 << i)) & (1 << j) != 0) <==> (i == j || b & (1 << j) != 0)
  {
  }

  lemma SetBitMeaning(bits: seq<bv8>, i: nat, j: nat)
    requires i / 8 < |bits| && j / 8 < |bits|
    ensures HasBit(SetBit(bits, i), j) <==> i == j || HasBit(bits, j)
  {
    if i / 8 == j / 8 {
      OrSetsOneBit(bits[i / 8], i % 8, j % 8);
    }
  }

  lemma ZeroHasNoBit(n: nat, j: nat)
    requires j / 8 < n
    ensures !HasBit(Zeros(n), j)
  {
    assert (0 as bv8) & (1 << (j % 8)) == 0;
  }

  /** A bitfield started empty is exactly the set of the indices that were set, in whatever order and
      however often. */
  lemma {:induction false} SetAllRefinesSet(n: nat, indices: seq<nat>, j: nat)
    requires Fit(indices, n)
    requires j / 8 < n
    ensures HasBit(SetAll(Zeros(n), indices), j) <==> j in indices
  {
    if indices == [] {
      ZeroHasNoBit(n, j);
    } else {
      var front, last := indices[..|indices| - 1], indices[|indices| - 1];
      SetAllRefinesSet(n, front, j);
      SetBitMeaning(SetAll(Zeros(n), front), last, j);
      assert indices == front + [last];
    }
  }

  ghost predicate Ascending(s: seq<int>) {
    forall i, j :: 0 <= i < j < |s| ==> s[i] < s[j]
  }

  /** `AsIntSlice` lists exactly the set bits, in ascending order and without repeats. */
  lemma {:induction false} IndicesListTheSet(bits: seq<bv8>, max: int)
    requires max < 8 * |bits|
    ensures Ascending(Indices(bits, max))
    ensures forall x :: x in Indices(bits, max) <==> 0 <= x <= max && HasBit(bits, x)
    decreases max + 1
  {
    if max >= 0 {
      IndicesListTheSet(bits, max - 1);
      var before := Indices(bits, max - 1);
      forall i | 0 <= i < |before|
        ensures before[i] < max
      {
        assert before[i] in before;
      }
    }
  }

  class Bitfield {
    const bytes: array<bv8>
    const numOfBits: int

    /** `NewBitfield`: room for `numOfBits` bits, all clear. */
    constructor (numOfBits: nat)
      ensures fresh(bytes) && this.numOfBits == numOfBits
      ensures bytes[..] == Zeros((numOfBits + 7) / 8)
    {
      this.numOfBits := numOfBits;
      bytes := new bv8[(numOfBits + 7) / 8](_ => 0);
    }

    /** `NewBitfieldFromBytes`. */
    constructor FromBytes(buff: seq<byte>)
      ensures fresh(bytes) && numOfBits == 8 * |buff|
      ensures bytes[..] == BitsOfPayload(buff)
    {
      numOfBits := 8 * |buff|;
      bytes := new bv8[|buff|](i requires 0 <= i < |buff| => ToBits(buff[i]));
    }

    method Set(i: nat)
      requires i / 8 < bytes.Length
      modifies bytes
      ensures bytes[..] == SetBit(old(bytes[..]), i)
    {
      var byteIdx, bitIdx := i / 8, i % 8;
      bytes[byteIdx] := bytes[byteIdx] | (1 << bitIdx);
    }

    function Has(i: nat): (r: bool)
      requires i / 8 < bytes.Length
      reads bytes
      ensures r <==> HasBit(bytes[..], i)
    {
      bytes[i / 8] & (1 << (i % 8)) != 0
    }

    method AsIntSlice(max: int) returns (indices: seq<int>)
      requires max < 8 * bytes.Length
      ensures indices == Indices(bytes[..], max)
    {
      indices := [];
      var i := 0;
      while i <= max
        invariant 0 <= i && (i <= max + 1 || (i == 0 && max < 0))
        invariant indices == Indices(bytes[..], i - 1)
      {
        if Has(i) {
          indices := indices + [i];
        }
        i := i + 1;
      }
    }
  }
}
