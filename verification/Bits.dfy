/** Bytes as bit strings, most significant bit first. */
module Bits {
  import opened Samples

  function Bit(v: byte, i: nat): bool
    requires i < 8
  {
    (v >> i) & 1 == 1
  }

  function ByteBits(v: byte): (bits: seq<bool>)
    ensures |bits| == 8
  {
    seq(8, j requires 0 <= j < 8 => Bit(v, 7 - j))
  }

  /** The bit stream of data, most significant bit of each byte first. */
  function BitsOf(data: seq<byte>): (bits: seq<bool>)
    ensures |bits| == 8 * |data|
  {
    if data == [] then [] else BitsOf(data[..|data| - 1]) + ByteBits(data[|data| - 1])
  }

  function Zeros(n: nat): (z: seq<bool>)
    ensures |z| == n
  {
    seq(n, _ => false)
  }

  lemma BitsOfSnoc(data: seq<byte>, v: byte)
    ensures BitsOf(data + [v]) == BitsOf(data) + ByteBits(v)
  {
    assert (data + [v])[..|data|] == data;
  }

  lemma {:induction false} BitsOfAppend(a: seq<byte>, b: seq<byte>)
    ensures BitsOf(a + b) == BitsOf(a) + BitsOf(b)
  {
    if b == [] {
      assert a + b == a;
    } else {
      assert (a + b)[..|a + b| - 1] == a + b[..|b| - 1];
      BitsOfAppend(a, b[..|b| - 1]);
    }
  }

  lemma {:induction false} BitsOfAt(data: seq<byte>, i: nat, j: nat)
    requires i < |data| && j < 8
    ensures BitsOf(data)[8 * i + j] == Bit(data[i], 7 - j)
    ensures BitsOf(data)[8 * i + j] == ((data[i] >> (7 - j)) & 1 == 1)
  {
    if i < |data| - 1 {
      BitsOfAt(data[..|data| - 1], i, j);
    } else {
      assert ByteBits(data[i])[j] == Bit(data[i], 7 - j);
    }
  }

  lemma LowBit(x: byte)
    ensures x & 1 == 0 || x & 1 == 1
  {
  }

  lemma BitAgrees(a: byte, b: byte, i: nat)
    requires i < 8 && ByteBits(a) == ByteBits(b)
    ensures (a >> i) & 1 == (b >> i) & 1
  {
    assert ByteBits(a)[7 - i] == Bit(a, i) && ByteBits(b)[7 - i] == Bit(b, i);
    LowBit(a >> i);
    LowBit(b >> i);
  }

  lemma EqualByBits(a: byte, b: byte)
    requires (a >> 0) & 1 == (b >> 0) & 1
    requires (a >> 1) & 1 == (b >> 1) & 1
    requires (a >> 2) & 1 == (b >> 2) & 1
    requires (a >> 3) & 1 == (b >> 3) & 1
    requires (a >> 4) & 1 == (b >> 4) & 1
    requires (a >> 5) & 1 == (b >> 5) & 1
    requires (a >> 6) & 1 == (b >> 6) & 1
    requires (a >> 7) & 1 == (b >> 7) & 1
    ensures a == b
  {
  }

  lemma ByteBitsInjective(a: byte, b: byte)
    requires ByteBits(a) == ByteBits(b)
    ensures a == b
  {
    BitAgrees(a, b, 0);
    BitAgrees(a, b, 1);
    BitAgrees(a, b, 2);
    BitAgrees(a, b, 3);
    BitAgrees(a, b, 4);
    BitAgrees(a, b, 5);
    BitAgrees(a, b, 6);
    BitAgrees(a, b, 7);
    EqualByBits(a, b);
  }

  /** A byte string is determined by its bit stream. */
  lemma {:induction false} BitsOfInjective(a: seq<byte>, b: seq<byte>)
    requires BitsOf(a) == BitsOf(b)
    ensures a == b
  {
    assert |a| == |b|;
    if a != [] {
      var n := |a| - 1;
      assert BitsOf(a)[..8 * n] == BitsOf(a[..n]) && BitsOf(b)[..8 * n] == BitsOf(b[..n]);
      assert BitsOf(a)[8 * n..] == ByteBits(a[n]) && BitsOf(b)[8 * n..] == ByteBits(b[n]);
      ByteBitsInjective(a[n], b[n]);
      BitsOfInjective(a[..n], b[..n]);
      assert a == a[..n] + [a[n]] && b == b[..n] + [b[n]];
    }
  }

  function Mask(p: nat): byte
    requires p < 8
  {
    1 << p
  }

  /** v with bit p set. */
  function WithBit(v: byte, p: nat): byte
    requires p < 8
  {
    v | Mask(p)
  }

  lemma OrShifts(v: byte, m: byte, q: nat)
    requires q < 8
    ensures ((v | m) >> q) & 1 == ((v >> q) & 1) | ((m >> q) & 1)
  {
  }

  lemma MaskBit(p: nat, q: nat)
    requires p < 8 && q < 8
    ensures (Mask(p) >> q) & 1 == if p == q then 1 else 0
  {
  }

  lemma OrOfBits(a: byte, b: byte)
    ensures a & 1 == 1 ==> (a & 1) | (b & 1) == 1
    ensures a & 1 != 1 ==> (a & 1) | (b & 1) == b & 1
  {
  }

  lemma SetBit(v: byte, p: nat, q: nat)
    requires p < 8 && q < 8
    ensures Bit(WithBit(v, p), q) == (Bit(v, q) || p == q)
  {
    hide Mask;
    OrShifts(v, Mask(p), q);
    MaskBit(p, q);
    OrOfBits(v >> q, Mask(p) >> q);
  }

  /** The byte with given bits, most significant first. */
  function ByteOf(bits: seq<bool>): (v: byte)
    requires |bits| == 8
    ensures ByteBits(v) == bits
  {
    var hi := Quad(bits[0], bits[1], bits[2], bits[3]);
    var lo := Quad(bits[4], bits[5], bits[6], bits[7]);
    JoinNibbles(hi, lo);
    (hi << 4) | lo
  }

  function Quad(b3: bool, b2: bool, b1: bool, b0: bool): (v: byte)
    ensures v & 0xF0 == 0
    ensures Bit(v, 3) == b3 && Bit(v, 2) == b2 && Bit(v, 1) == b1 && Bit(v, 0) == b0
  {
    Flag(b3, 3) | Flag(b2, 2) | Flag(b1, 1) | Flag(b0, 0)
  }

  lemma JoinNibbles(hi: byte, lo: byte)
    requires hi & 0xF0 == 0 && lo & 0xF0 == 0
    ensures var v := (hi << 4) | lo;
            && Bit(v, 7) == Bit(hi, 3) && Bit(v, 6) == Bit(hi, 2) && Bit(v, 5) == Bit(hi, 1) && Bit(v, 4) == Bit(hi, 0)
            && Bit(v, 3) == Bit(lo, 3) && Bit(v, 2) == Bit(lo, 2) && Bit(v, 1) == Bit(lo, 1) && Bit(v, 0) == Bit(lo, 0)
  {
  }

  function Flag(on: bool, i: nat): byte
    requires i < 8
  {
    if on then 1 << i else 0
  }

  /** The byte string with a given bit stream. */
  function FromBits(bits: seq<bool>): (data: seq<byte>)
    requires |bits| % 8 == 0
    ensures BitsOf(data) == bits
  {
    hide Bit, ByteBits, ByteOf;
    if bits == [] then []
    else
      var n := |bits| - 8;
      assert bits == bits[..n] + bits[n..];
      var rest, last := FromBits(bits[..n]), ByteOf(bits[n..]);
      BitsOfSnoc(rest, last);
      rest + [last]
  }
}
