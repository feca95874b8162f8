/** 64-bit words as little-endian bytes, and what it means for two of them to differ by a repeated
    byte. */
module Words {
  import opened Samples

  /** The bit-vector operations the conditioning stages use. Proofs above this layer hide them. */
  function XorByte(a: byte, b: byte): byte { a ^ b }

  function XorWord(t: bv64, u: bv64): bv64 { t ^ u }

  function Low(t: bv64): byte { (t & 0xFF) as byte }

  function High(t: bv64): bv64 { t >> 8 }

  /** Byte k of a word, counted from the least significant. */
  function ByteAt(t: bv64, k: nat): byte
    decreases k
  {
    if k == 0 then Low(t) else ByteAt(High(t), k - 1)
  }

  function LittleEndian(t: bv64): (bytes: seq<byte>)
    ensures |bytes| == 8
  {
    seq(8, k requires 0 <= k < 8 => ByteAt(t, k))
  }

  /** The byte c in each of the eight positions of a word. */
  function Repeated(c: byte): bv64 {
    var w := c as bv64;
    w | (w << 8) | (w << 16) | (w << 24) | (w << 32) | (w << 40) | (w << 48) | (w << 56)
  }

  /** Every byte of a differs from the byte of b at the same place by c. */
  ghost predicate DifferBy(a: seq<byte>, b: seq<byte>, c: byte) {
    |a| == |b| && forall k: nat :: k < |a| ==> DiffersAt(a, b, c, k)
  }

  predicate DiffersAt(a: seq<byte>, b: seq<byte>, c: byte, k: nat)
    requires |a| == |b| && k < |a|
  {
    XorByte(a[k], b[k]) == c
  }

  lemma DifferByAppend(a: seq<byte>, a': seq<byte>, b: seq<byte>, b': seq<byte>, c: byte)
    requires |a| == |a'| && |b| == |b'|
    ensures DifferBy(a + b, a' + b', c) <==> DifferBy(a, a', c) && DifferBy(b, b', c)
  {
    hide XorByte;
    var s, s' := a + b, a' + b';
    assert forall k: nat :: k < |a| ==> DiffersAt(s, s', c, k) == DiffersAt(a, a', c, k);
    assert forall k: nat :: k < |b| ==> DiffersAt(b, b', c, k) == DiffersAt(s, s', c, |a| + k);
    if DifferBy(a, a', c) && DifferBy(b, b', c) {
      forall k: nat | k < |s|
        ensures DiffersAt(s, s', c, k)
      {
        if k >= |a| {
          assert DiffersAt(b, b', c, k - |a|);
        }
      }
    }
  }

  lemma XorOfParts(t: bv64, u: bv64)
    ensures High(XorWord(t, u)) == XorWord(High(t), High(u))
    ensures Low(XorWord(t, u)) == XorByte(Low(t), Low(u))
  {
  }

  /** XOR of words is XOR of their bytes. */
  lemma {:induction false} ByteOfXor(t: bv64, u: bv64, k: nat)
    ensures XorByte(ByteAt(t, k), ByteAt(u, k)) == ByteAt(XorWord(t, u), k)
    decreases k
  {
    hide XorByte, XorWord, Low, High;
    XorOfParts(t, u);
    if k > 0 {
      ByteOfXor(High(t), High(u), k - 1);
    }
  }

  lemma Shifts(x: bv64)
    ensures Low(x) == (x & 0xFF) as byte && High(x) == x >> 8
    ensures Low(x >> 8) == ((x >> 8) & 0xFF) as byte && High(x >> 8) == x >> 16
    ensures Low(x >> 16) == ((x >> 16) & 0xFF) as byte && High(x >> 16) == x >> 24
    ensures Low(x >> 24) == ((x >> 24) & 0xFF) as byte && High(x >> 24) == x >> 32
    ensures Low(x >> 32) == ((x >> 32) & 0xFF) as byte && High(x >> 32) == x >> 40
    ensures Low(x >> 40) == ((x >> 40) & 0xFF) as byte && High(x >> 40) == x >> 48
    ensures Low(x >> 48) == ((x >> 48) & 0xFF) as byte && High(x >> 48) == x >> 56
    ensures Low(x >> 56) == ((x >> 56) & 0xFF) as byte
  {
  }

  lemma WordFromBytes(x: bv64, c: byte)
    requires (x & 0xFF) as byte == c
    requires ((x >> 8) & 0xFF) as byte == c
    requires ((x >> 16) & 0xFF) as byte == c
    requires ((x >> 24) & 0xFF) as byte == c
    requires ((x >> 32) & 0xFF) as byte == c
    requires ((x >> 40) & 0xFF) as byte == c
    requires ((x >> 48) & 0xFF) as byte == c
    requires ((x >> 56) & 0xFF) as byte == c
    ensures x == Repeated(c)
  {
  }

  lemma BytesFromWord(x: bv64, c: byte)
    requires x == Repeated(c)
    ensures (x & 0xFF) as byte == c
    ensures ((x >> 8) & 0xFF) as byte == c
    ensures ((x >> 16) & 0xFF) as byte == c
    ensures ((x >> 24) & 0xFF) as byte == c
    ensures ((x >> 32) & 0xFF) as byte == c
    ensures ((x >> 40) & 0xFF) as byte == c
    ensures ((x >> 48) & 0xFF) as byte == c
    ensures ((x >> 56) & 0xFF) as byte == c
  {
  }

  lemma BytesShifted(x: bv64)
    ensures ByteAt(x, 0) == (x & 0xFF) as byte
    ensures ByteAt(x, 1) == ((x >> 8) & 0xFF) as byte
    ensures ByteAt(x, 2) == ((x >> 16) & 0xFF) as byte
    ensures ByteAt(x, 3) == ((x >> 24) & 0xFF) as byte
    ensures ByteAt(x, 4) == ((x >> 32) & 0xFF) as byte
    ensures ByteAt(x, 5) == ((x >> 40) & 0xFF) as byte
    ensures ByteAt(x, 6) == ((x >> 48) & 0xFF) as byte
    ensures ByteAt(x, 7) == ((x >> 56) & 0xFF) as byte
  {
    hide Low, High;
    Shifts(x);
    assert ByteAt(x, 1) == ByteAt(x >> 8, 0);
    assert ByteAt(x, 2) == ByteAt(x >> 16, 0);
    assert ByteAt(x, 3) == ByteAt(x >> 24, 0);
    assert ByteAt(x, 4) == ByteAt(x >> 32, 0);
    assert ByteAt(x, 5) == ByteAt(x >> 40, 0);
    assert ByteAt(x, 6) == ByteAt(x >> 48, 0);
    assert ByteAt(x, 7) == ByteAt(x >> 56, 0);
  }

  /** The byte n bits up in t. */
  function ByteUp(t: bv64, n: nat): byte
    requires n <= 56
  {
    ((t >> n) & 0xFF) as byte
  }

  lemma BytesUp(t: bv64)
    ensures ByteAt(t, 0) == ByteUp(t, 0) && ByteAt(t, 1) == ByteUp(t, 8)
    ensures ByteAt(t, 2) == ByteUp(t, 16) && ByteAt(t, 3) == ByteUp(t, 24)
    ensures ByteAt(t, 4) == ByteUp(t, 32) && ByteAt(t, 5) == ByteUp(t, 40)
    ensures ByteAt(t, 6) == ByteUp(t, 48) && ByteAt(t, 7) == ByteUp(t, 56)
  {
    hide Low, High, ByteAt;
    BytesShifted(t);
  }

  lemma ByteAtIsUp(t: bv64, k: nat)
    requires k < 8
    ensures ByteAt(t, k) == ByteUp(t, 8 * k)
  {
    hide Low, High, ByteAt, ByteUp;
    BytesUp(t);
    assert k == 0 || k == 1 || k == 2 || k == 3 || k == 4 || k == 5 || k == 6 || k == 7;
  }

  /** Word i of raw, taken in words of eight bytes, has byte k of t at its place, least significant
      first. */
  predicate HoldsByte(raw: seq<byte>, i: nat, t: bv64, k: nat)
    requires k < 8 && 8 * i + 8 <= |raw|
  {
    raw[8 * i + k] == ((t >> (8 * k)) & 0xFF) as byte
  }

  /** The encoding begins with the least significant byte. */
  lemma LittleEndianAt(t: bv64, k: nat)
    requires k < 8
    ensures LittleEndian(t)[k] == ((t >> (8 * k)) & 0xFF) as byte
  {
    hide ByteAt;
    ByteAtIsUp(t, k);
  }

  lemma LittleEndianHolds(t: bv64, k: nat)
    requires k < 8
    ensures HoldsByte(LittleEndian(t), 0, t, k)
  {
    hide LittleEndian;
    LittleEndianAt(t, k);
  }

  ghost predicate AllBytesAre(x: bv64, c: byte) {
    forall k: nat :: k < 8 ==> ByteAt(x, k) == c
  }

  /** A word repeats c exactly when all its bytes are c. */
  lemma RepeatedBytes(x: bv64, c: byte)
    ensures AllBytesAre(x, c) <==> x == Repeated(c)
  {
    hide Low, High, Repeated;
    BytesShifted(x);
    if AllBytesAre(x, c) {
      WordFromBytes(x, c);
    }
    if x == Repeated(c) {
      BytesFromWord(x, c);
      forall k: nat | k < 8
        ensures ByteAt(x, k) == c
      {
        assert k == 0 || k == 1 || k == 2 || k == 3 || k == 4 || k == 5 || k == 6 || k == 7;
      }
    }
  }

  /** Two words differ by c repeated eight times exactly when all their bytes differ by c. */
  lemma XorBytewise(t: bv64, u: bv64, c: byte)
    ensures DifferBy(LittleEndian(t), LittleEndian(u), c) <==> XorWord(t, u) == Repeated(c)
  {
    hide XorByte, XorWord, Low, High, Repeated, ByteAt;
    var a, b, x := LittleEndian(t), LittleEndian(u), XorWord(t, u);
    forall k: nat | k < 8
      ensures XorByte(a[k], b[k]) == ByteAt(x, k)
    {
      ByteOfXor(t, u, k);
    }
    if DifferBy(a, b, c) {
      forall k: nat | k < 8
        ensures ByteAt(x, k) == c
      {
        assert DiffersAt(a, b, c, k);
      }
    }
    RepeatedBytes(x, c);
  }
}
