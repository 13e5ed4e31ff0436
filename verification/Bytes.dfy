/** Bytes and the big-endian 32-bit integers of the peer protocol. */
module Bytes {

  newtype byte = x: int | 0 <= x < 256

  const TWO_TO_32: int := 0x1_0000_0000

  /** Go's conversion `uint32(x)`: the value modulo 2^32, never negative. */
  function ToUint32(x: int): (r: nat)
    ensures r < TWO_TO_32
    ensures 0 <= x < TWO_TO_32 ==> r == x
  {
    x % TWO_TO_32
  }

  /** `binary.BigEndian.PutUint32` into a fresh four-byte buffer. */
  function PutUint32(n: nat): (b: seq<byte>)
    requires n < TWO_TO_32
    ensures |b| == 4
  {
    var shift8 := n / 256;
    var shift16 := shift8 / 256;
    var shift24 := shift16 / 256;
    [shift24 as byte, (shift16 % 256) as byte, (shift8 % 256) as byte, (n % 256) as byte]
  }

  /** `binary.BigEndian.Uint32` of the first four bytes. */
  function Uint32(b: seq<byte>): (n: nat)
    requires |b| >= 4
    ensures n < TWO_TO_32
  {
    b[0] as int * 0x100_0000 + b[1] as int * 0x1_0000 + b[2] as int * 256 + b[3] as int
  }

  lemma Uint32OfPut(n: nat, rest: seq<byte>)
    requires n < TWO_TO_32
    ensures Uint32(PutUint32(n) + rest) == n
  {
    var shift8 := n / 256;
    var shift16 := shift8 / 256;
    assert n == 256 * shift8 + n % 256;
    assert shift8 == 256 * shift16 + shift8 % 256;
    assert shift16 == 256 * (shift16 / 256) + shift16 % 256;
  }

  lemma PutOfUint32(b: seq<byte>)
    requires |b| >= 4
    ensures PutUint32(Uint32(b)) == b[..4]
  {
    var n := Uint32(b);
    var shift8 := b[0] as int * 0x1_0000 + b[1] as int * 256 + b[2] as int;
    var shift16 := b[0] as int * 256 + b[1] as int;
    assert n == 256 * shift8 + b[3] as int && n / 256 == shift8;
    assert shift8 == 256 * shift16 + b[2] as int && shift8 / 256 == shift16;
    assert shift16 / 256 == b[0] as int;
  }
}
