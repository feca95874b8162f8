/** The conditioning stages: von Neumann extraction, bit packing, the adjacent-byte XOR fold and
    the dual-stage pipeline built on it. SHA-256 is a parameter: any map from byte strings to
    32-byte digests. A nil slice is the empty sequence. */
module Whitening {
  import opened Samples
  import opened Bits
  import opened Words
  import opened VonNeumann

  type Digest = d: seq<byte> | |d| == 32 witness seq(32, _ => 0)
  type Hash = seq<byte> -> Digest

  // ======================= Von Neumann extraction =======================

  function ExtractedBits(input: seq<byte>): seq<bool> { Debiased(BitsOf(input)) }

  /** Extraction works byte by byte: what a concatenation yields is what its parts yield. */
  lemma ExtractedBitsAppend(a: seq<byte>, b: seq<byte>)
    ensures ExtractedBits(a + b) == ExtractedBits(a) + ExtractedBits(b)
  {
    BitsOfAppend(a, b);
    DebiasedAppend(BitsOf(a), BitsOf(b));
  }

  /** Which entries of a slice of bit values count as one-bits. */
  function Flags(values: seq<byte>): (flags: seq<bool>)
    ensures |flags| == |values|
  {
    seq(|values|, i requires 0 <= i < |values| => values[i] != 0)
  }

  lemma FlagsSnoc(values: seq<byte>, v: byte)
    ensures Flags(values + [v]) == Flags(values) + [v != 0]
  {
  }

  /** The unequal pairs of one byte, appended as bit values. */
  method ExtractPairs(value: byte, extracted: seq<byte>) returns (after: seq<byte>)
    ensures Flags(after) == Flags(extracted) + Debiased(ByteBits(value))
  {
    hide Debiased, Flags, ByteBits;
    after := extracted;
    for pairIndex := 0 to 4
      invariant Flags(after) == Flags(extracted) + Debiased(ByteBits(value)[..2 * pairIndex])
    {
      var firstBitIndex := 7 - pairIndex * 2;
      var secondBitIndex := firstBitIndex - 1;
      var firstBit := (value >> firstBitIndex) & 1;
      var secondBit := (value >> secondBitIndex) & 1;
      PairStep(value, pairIndex, firstBitIndex, secondBitIndex, firstBit, secondBit);
      if firstBit != secondBit {
        var emitted: byte := if firstBit == 0 then 0 else 1;
        FlagsSnoc(after, emitted);
        after := after + [emitted];
      }
    }
    assert ByteBits(value)[..8] == ByteBits(value);
  }

  /** The result unpacks, most significant bit first, to the extracted bits and then only zero
      padding, less than a byte of it; it has at most half as many bytes as the input, rounded up. */
  method VonNeumannExtractor(input: seq<byte>) returns (output: seq<byte>)
    ensures |output| == (|ExtractedBits(input)| + 7) / 8 <= (|input| + 1) / 2
    ensures BitsOf(output) == ExtractedBits(input) + Zeros(8 * |output| - |ExtractedBits(input)|)
  {
    if |input| == 0 {
      return [];
    }
    var extracted: seq<byte> := [];
    for i := 0 to |input|
      invariant Flags(extracted) == ExtractedBits(input[..i])
    {
      extracted := ExtractPairs(input[i], extracted);
      assert input[..i + 1] == input[..i] + [input[i]];
      ExtractedBitsSnoc(input[..i], input[i]);
    }
    assert input[..|input|] == input;
    if |extracted| == 0 {
      return [];
    }
    output := PackBits(extracted);
  }

  /** One pair of bits, as the loop reads it. */
  lemma PairStep(value: byte, k: nat, first: nat, second: nat, firstBit: byte, secondBit: byte)
    requires k < 4 && first == 7 - k * 2 && second == first - 1
    requires firstBit == (value >> first) & 1
    requires secondBit == (value >> second) & 1
    ensures Debiased(ByteBits(value)[..2 * (k + 1)]) == Debiased(ByteBits(value)[..2 * k]) +
            (if firstBit == secondBit then [] else [firstBit != 0])
  {
    hide Bit, ByteBits, Debiased;
    DebiasedPair(ByteBits(value), k);
    BitValue(value, first, firstBit);
    BitValue(value, second, secondBit);
    PairKept(ByteBits(value)[2 * k], ByteBits(value)[2 * k + 1], firstBit, secondBit);
  }

  lemma PairKept(b0: bool, b1: bool, firstBit: byte, secondBit: byte)
    requires firstBit == if b0 then 1 else 0
    requires secondBit == if b1 then 1 else 0
    ensures (b0 == b1) == (firstBit == secondBit)
    ensures b0 == (firstBit != 0)
  {
  }

  lemma BitValue(value: byte, i: nat, bit: byte)
    requires i < 8
    requires bit == (value >> i) & 1
    ensures bit == if ByteBits(value)[7 - i] then 1 else 0
  {
    LowBit(value >> i);
  }

  lemma ExtractedBitsSnoc(data: seq<byte>, value: byte)
    ensures ExtractedBits(data + [value]) == ExtractedBits(data) + Debiased(ByteBits(value))
  {
    BitsOfSnoc(data, value);
    DebiasedAppend(BitsOf(data), ByteBits(value));
  }

  // ---- Bit packing ----

  /** Any nonzero entry counts as a one-bit; the bits come back MSB-first, then zero padding. */
  method PackBits(bits: seq<byte>) returns (output: seq<byte>)
    ensures |output| == (|bits| + 7) / 8
    ensures BitsOf(output) == Flags(bits) + Zeros(8 * |output| - |bits|)
  {
    if |bits| == 0 {
      return [];
    }
    hide Bit, WithBit;
    var buffer := new byte[(|bits| + 7) / 8](_ => 0);
    forall i: nat, p: nat | i < |buffer[..]| && p < 8
      ensures !Bit(buffer[..][i], p)
    {
      ZeroHasNoBits(p);
    }
    for index := 0 to |bits|
      invariant PackedUpTo(buffer[..], bits, index)
    {
      PackStep(buffer[..], bits, index);
      if bits[index] != 0 {
        var byteIndex := index / 8;
        var bitPosition := 7 - (index % 8);
        buffer[byteIndex] := WithBit(buffer[byteIndex], bitPosition);
      }
    }
    output := buffer[..];
    PackedAll(output, bits);
  }

  lemma ZeroHasNoBits(p: nat)
    requires p < 8
    ensures !Bit(0, p)
  {
  }

  /** The buffer holds the first entries of bits, each in its MSB-first place, and nothing else. */
  ghost predicate PackedUpTo(buffer: seq<byte>, bits: seq<byte>, index: nat) {
    && |buffer| == (|bits| + 7) / 8
    && index <= |bits|
    && forall i: nat, p: nat :: i < |buffer| && p < 8 ==>
         Bit(buffer[i], p) == (8 * i + 7 - p < index && bits[8 * i + 7 - p] != 0)
  }

  lemma PackStep(buffer: seq<byte>, bits: seq<byte>, index: nat)
    requires index < |bits| && PackedUpTo(buffer, bits, index)
    ensures var at, pos := index / 8, 7 - index % 8;
            PackedUpTo(if bits[index] == 0 then buffer else buffer[at := WithBit(buffer[at], pos)], bits, index + 1)
  {
    hide Bit, WithBit;
    var at, pos := index / 8, 7 - index % 8;
    if bits[index] != 0 {
      var after := buffer[at := WithBit(buffer[at], pos)];
      forall i: nat, p: nat | i < |after| && p < 8
        ensures Bit(after[i], p) == (8 * i + 7 - p < index + 1 && bits[8 * i + 7 - p] != 0)
      {
        if i == at {
          SetBit(buffer[at], pos, p);
        }
      }
    }
  }

  lemma {:induction false} PackedAll(buffer: seq<byte>, bits: seq<byte>)
    requires PackedUpTo(buffer, bits, |bits|)
    ensures BitsOf(buffer) == Flags(bits) + Zeros(8 * |buffer| - |bits|)
  {
    hide Bit, BitsOf;
    var want := Flags(bits) + Zeros(8 * |buffer| - |bits|);
    forall q | 0 <= q < 8 * |buffer|
      ensures BitsOf(buffer)[q] == want[q]
    {
      PackedAt(buffer, bits, q);
    }
  }

  lemma {:induction false} PackedAt(buffer: seq<byte>, bits: seq<byte>, q: nat)
    requires PackedUpTo(buffer, bits, |bits|) && q < 8 * |buffer|
    ensures BitsOf(buffer)[q] == (q < |bits| && bits[q] != 0)
  {
    hide Bit;
    var i, j := q / 8, q % 8;
    BitsOfAt(buffer, i, j);
    var p := 7 - j;
    assert Bit(buffer[i], p) == (8 * i + 7 - p < |bits| && bits[8 * i + 7 - p] != 0);
  }

  /** What PackBits must return, as a function: it is the only byte string with these bits. */
  function Packed(bits: seq<bool>): (data: seq<byte>)
    ensures |data| == (|bits| + 7) / 8
    ensures BitsOf(data) == bits + Zeros(8 * |data| - |bits|)
  {
    FromBits(bits + Zeros((|bits| + 7) / 8 * 8 - |bits|))
  }

  /** Packing loses nothing but the length: two bit strings of one length pack alike only if equal. */
  lemma PackedInjective(a: seq<bool>, b: seq<bool>)
    requires |a| == |b| && Packed(a) == Packed(b)
    ensures a == b
  {
    assert (a + Zeros(8 * |Packed(a)| - |a|))[..|a|] == a;
    assert (b + Zeros(8 * |Packed(b)| - |b|))[..|b|] == b;
  }

  /** The same conjugation on byte strings. */
  function Conjugate(input: seq<byte>, mask: seq<bool>): (out: seq<byte>)
    requires |mask| == |ExtractedBits(input)|
  {
    FromBits(SwapMasked(BitsOf(input), mask))
  }

  /** For every input and every mask over its extracted bits there is an involution of inputs that
      keeps length and number of one-bits and turns the extracted bits into bits XOR mask. */
  lemma {:induction false} VonNeumannConjugation(input: seq<byte>, mask: seq<bool>)
    requires |mask| == |ExtractedBits(input)|
    ensures var out := Conjugate(input, mask);
            && |out| == |input|
            && Count(BitsOf(out), true) == Count(BitsOf(input), true)
            && ExtractedBits(out) == Masked(ExtractedBits(input), mask)
            && Conjugate(out, mask) == input
  {
    var out := Conjugate(input, mask);
    SwapMaskedFlips(BitsOf(input), mask);
    SwapMaskedKeepsOnes(BitsOf(input), mask);
    SwapMaskedUndone(BitsOf(input), mask);
    BitsOfInjective(Conjugate(out, mask), input);
  }

  // ======================= Parity fold and dual-stage whitening =======================

  /** Each byte XOR its successor. */
  function Folded(input: seq<byte>): (out: seq<byte>)
    ensures |out| == if |input| < 2 then 0 else |input| - 1
    decreases |input|
  {
    if |input| < 2 then [] else [XorByte(input[0], input[1])] + Folded(input[1..])
  }

  lemma {:induction false} FoldedAt(input: seq<byte>, i: nat)
    requires i + 1 < |input|
    ensures Folded(input)[i] == XorByte(input[i], input[i + 1])
    decreases i
  {
    hide XorByte;
    if i > 0 {
      FoldedAt(input[1..], i - 1);
    }
  }

  /** fold holds the XOR of every two adjacent bytes of raw. */
  ghost predicate FoldOf(raw: seq<byte>, fold: seq<byte>) {
    |fold| + 1 == |raw| && forall i: nat :: i < |fold| ==> HoldsXor(raw, fold, i)
  }

  predicate HoldsXor(raw: seq<byte>, fold: seq<byte>, i: nat)
    requires i < |fold| && |fold| < |raw|
  {
    fold[i] == raw[i] ^ raw[i + 1]
  }

  lemma HoldsXorOf(raw: seq<byte>, fold: seq<byte>, i: nat)
    requires i < |fold| && |fold| < |raw|
    ensures HoldsXor(raw, fold, i) <==> fold[i] == XorByte(raw[i], raw[i + 1])
  {
  }

  lemma OneFold(raw: seq<byte>)
    requires |raw| >= 1
    ensures FoldOf(raw, Folded(raw))
    ensures forall fold :: FoldOf(raw, fold) ==> fold == Folded(raw)
  {
    hide XorByte, HoldsXor, Folded;
    var f := Folded(raw);
    forall i: nat | i < |f|
      ensures HoldsXor(raw, f, i)
    {
      FoldedAt(raw, i);
      HoldsXorOf(raw, f, i);
    }
    forall fold | FoldOf(raw, fold)
      ensures fold == f
    {
      forall i: nat | i < |f|
        ensures fold[i] == f[i]
      {
        assert HoldsXor(raw, fold, i);
        HoldsXorOf(raw, fold, i);
        FoldedAt(raw, i);
      }
    }
  }

  method ParityPreprocess(input: seq<byte>) returns (output: seq<byte>)
    ensures output == Folded(input)
    ensures if |input| < 2 then output == [] else FoldOf(input, output)
  {
    if |input| < 2 {
      return [];
    }
    OneFold(input);
    hide XorByte, FoldOf;
    var buffer := new byte[|input| - 1](_ => 0);
    for index := 0 to buffer.Length
      invariant forall i: nat :: i < index ==> buffer[i] == Folded(input)[i]
    {
      buffer[index] := XorByte(input[index], input[index + 1]);
      FoldedAt(input, index);
    }
    output := buffer[..];
  }

  /** Rebuild a string from its first byte and its fold. */
  function Unfolded(first: byte, fold: seq<byte>): (data: seq<byte>)
    ensures |data| == |fold| + 1
    decreases |fold|
  {
    [first] + if fold == [] then [] else Unfolded(XorByte(first, fold[0]), fold[1..])
  }

  lemma XorTwice(a: byte, b: byte)
    ensures XorByte(a, XorByte(a, b)) == b
  {
  }

  /** The fold and the first byte determine the string. */
  lemma {:induction false} FoldRebuilds(input: seq<byte>)
    requires input != []
    ensures Unfolded(input[0], Folded(input)) == input
    decreases |input|
  {
    hide XorByte;
    if |input| >= 2 {
      XorTwice(input[0], input[1]);
      FoldRebuilds(input[1..]);
    }
  }

  /** Every string is a fold, once for each first byte. */
  lemma {:induction false} FoldIsOnto(first: byte, fold: seq<byte>)
    ensures Folded(Unfolded(first, fold)) == fold
    decreases |fold|
  {
    hide XorByte;
    if fold != [] {
      var rest := Unfolded(XorByte(first, fold[0]), fold[1..]);
      FoldIsOnto(XorByte(first, fold[0]), fold[1..]);
      assert ([first] + rest)[1..] == rest;
      XorTwice(first, fold[0]);
    }
  }

  lemma XorCancels(a: byte, a': byte, b: byte, b': byte)
    requires XorByte(a, a') == XorByte(b, b')
    ensures XorByte(a, b) == XorByte(a', b')
  {
  }

  /** Strings that differ by one byte throughout fold alike. */
  lemma {:induction false} ShiftedFoldsAgree(a: seq<byte>, b: seq<byte>, c: byte)
    requires DifferBy(a, b, c)
    ensures Folded(a) == Folded(b)
  {
    hide XorByte;
    forall i: nat | i < |Folded(a)|
      ensures Folded(a)[i] == Folded(b)[i]
    {
      FoldedAt(a, i);
      FoldedAt(b, i);
      assert DiffersAt(a, b, c, i);
      assert DiffersAt(a, b, c, i + 1);
      XorCancels(a[i], b[i], a[i + 1], b[i + 1]);
    }
  }

  /** Strings of one length that fold alike differ by one byte throughout. */
  lemma {:induction false} AgreeingFoldsShift(a: seq<byte>, b: seq<byte>, k: nat)
    requires |a| == |b| && k < |a| && Folded(a) == Folded(b)
    ensures DiffersAt(a, b, XorByte(a[0], b[0]), k)
    decreases k
  {
    hide XorByte;
    if k > 0 {
      AgreeingFoldsShift(a, b, k - 1);
      FoldedAt(a, k - 1);
      FoldedAt(b, k - 1);
      XorCancels(a[k - 1], a[k], b[k - 1], b[k]);
    }
  }

  /** The picosecond timestamps of a batch as the byte stream that is whitened. */
  function Serialised(timestamps: seq<bv64>): (raw: seq<byte>)
    ensures |raw| == 8 * |timestamps|
    decreases |timestamps|
  {
    if timestamps == [] then []
    else Serialised(timestamps[..|timestamps| - 1]) + LittleEndian(timestamps[|timestamps| - 1])
  }

  /** raw holds the timestamps in order, eight bytes each, least significant first. */
  ghost predicate Encodes(raw: seq<byte>, timestamps: seq<bv64>) {
    && |raw| == 8 * |timestamps|
    && forall i: nat, k: nat :: i < |timestamps| && k < 8 ==>
         HoldsByte(raw, i, timestamps[i], k)
  }

  lemma {:induction false} SerialisedAt(timestamps: seq<bv64>, i: nat, k: nat)
    requires i < |timestamps| && k < 8
    ensures HoldsByte(Serialised(timestamps), i, timestamps[i], k)
    decreases |timestamps|
  {
    hide LittleEndian, HoldsByte;
    var n := |timestamps| - 1;
    var s, d := Serialised(timestamps), Serialised(timestamps[..n]);
    if i == n {
      LittleEndianHolds(timestamps[n], k);
      assert s[8 * n + k] == LittleEndian(timestamps[n])[k];
      HoldsSame(s, i, LittleEndian(timestamps[n]), 0, timestamps[n], k);
    } else {
      SerialisedAt(timestamps[..n], i, k);
      HoldsSame(s, i, d, i, timestamps[i], k);
    }
  }

  lemma HoldsSame(a: seq<byte>, i: nat, b: seq<byte>, j: nat, t: bv64, k: nat)
    requires k < 8 && 8 * i + 8 <= |a| && 8 * j + 8 <= |b| && a[8 * i + k] == b[8 * j + k]
    ensures HoldsByte(a, i, t, k) <==> HoldsByte(b, j, t, k)
  {
  }

  lemma HeldTwice(a: seq<byte>, b: seq<byte>, i: nat, t: bv64, k: nat)
    requires k < 8 && 8 * i + 8 <= |a| == |b| && HoldsByte(a, i, t, k) && HoldsByte(b, i, t, k)
    ensures a[8 * i + k] == b[8 * i + k]
  {
  }

  lemma OneEncoding(timestamps: seq<bv64>)
    ensures Encodes(Serialised(timestamps), timestamps)
    ensures forall raw :: Encodes(raw, timestamps) ==> raw == Serialised(timestamps)
  {
    hide Serialised, HoldsByte;
    var s := Serialised(timestamps);
    forall i: nat, k: nat | i < |timestamps| && k < 8
      ensures HoldsByte(s, i, timestamps[i], k)
    {
      SerialisedAt(timestamps, i, k);
    }
    forall raw | Encodes(raw, timestamps)
      ensures raw == s
    {
      SameBytes(raw, s, timestamps);
    }
  }

  lemma SameBytes(a: seq<byte>, b: seq<byte>, timestamps: seq<bv64>)
    requires Encodes(a, timestamps) && Encodes(b, timestamps)
    ensures a == b
  {
    hide HoldsByte;
    forall q | 0 <= q < |a|
      ensures a[q] == b[q]
    {
      var i: nat, k: nat := q / 8, q % 8;
      assert q == 8 * i + k;
      HeldTwice(a, b, i, timestamps[i], k);
    }
  }

  /** All pairs of timestamps differ by XOR with c repeated eight times. */
  ghost predicate ShiftedBy(ts: seq<bv64>, us: seq<bv64>, c: byte) {
    |ts| == |us| && forall k: nat :: k < |ts| ==> ShiftedAt(ts, us, c, k)
  }

  predicate ShiftedAt(ts: seq<bv64>, us: seq<bv64>, c: byte, k: nat)
    requires |ts| == |us| && k < |ts|
  {
    XorWord(ts[k], us[k]) == Repeated(c)
  }

  lemma {:induction false} DifferingStreamsShift(ts: seq<bv64>, us: seq<bv64>, c: byte)
    requires |ts| == |us| && DifferBy(Serialised(ts), Serialised(us), c)
    ensures ShiftedBy(ts, us, c)
    decreases |ts|
  {
    hide XorByte, XorWord, Repeated, ByteAt;
    if ts != [] {
      var n := |ts| - 1;
      WordRemoved(Serialised(ts[..n]), Serialised(us[..n]), ts[n], us[n], c);
      DifferingStreamsShift(ts[..n], us[..n], c);
      forall k: nat | k < |ts|
        ensures ShiftedAt(ts, us, c, k)
      {
        if k < n {
          assert ShiftedAt(ts[..n], us[..n], c, k);
        }
      }
    }
  }

  lemma WordRemoved(a: seq<byte>, b: seq<byte>, t: bv64, u: bv64, c: byte)
    requires |a| == |b| && DifferBy(a + LittleEndian(t), b + LittleEndian(u), c)
    ensures DifferBy(a, b, c)
    ensures XorWord(t, u) == Repeated(c)
  {
    hide XorByte, XorWord, Repeated, ByteAt;
    DifferByAppend(a, b, LittleEndian(t), LittleEndian(u), c);
    XorBytewise(t, u, c);
  }

  lemma {:induction false} ShiftedStreamsDiffer(ts: seq<bv64>, us: seq<bv64>, c: byte)
    requires ShiftedBy(ts, us, c)
    ensures DifferBy(Serialised(ts), Serialised(us), c)
    decreases |ts|
  {
    hide XorByte, XorWord, Repeated, ByteAt;
    if ts != [] {
      var n := |ts| - 1;
      forall k: nat | k < n
        ensures ShiftedAt(ts[..n], us[..n], c, k)
      {
        assert ShiftedAt(ts, us, c, k);
      }
      ShiftedStreamsDiffer(ts[..n], us[..n], c);
      assert ShiftedAt(ts, us, c, n);
      WordAdded(Serialised(ts[..n]), Serialised(us[..n]), ts[n], us[n], c);
    }
  }

  lemma WordAdded(a: seq<byte>, b: seq<byte>, t: bv64, u: bv64, c: byte)
    requires |a| == |b| && DifferBy(a, b, c)
    requires XorWord(t, u) == Repeated(c)
    ensures DifferBy(a + LittleEndian(t), b + LittleEndian(u), c)
  {
    hide XorByte, XorWord, Repeated, ByteAt;
    DifferByAppend(a, b, LittleEndian(t), LittleEndian(u), c);
    XorBytewise(t, u, c);
  }

  /** Stage one confuses two batches exactly when they have the same number of events and every
      pair of timestamps differs by one and the same byte repeated eight times. */
  lemma StageOneKernel(ts: seq<bv64>, us: seq<bv64>)
    requires ts != [] && us != []
    ensures Folded(Serialised(ts)) == Folded(Serialised(us)) <==> exists c: byte :: ShiftedBy(ts, us, c)
  {
    hide XorByte, XorWord, Repeated, ByteAt;
    var a, b := Serialised(ts), Serialised(us);
    if Folded(a) == Folded(b) {
      assert |a| == |b|;
      var c := XorByte(a[0], b[0]);
      forall k: nat | k < |a|
        ensures DiffersAt(a, b, c, k)
      {
        AgreeingFoldsShift(a, b, k);
      }
      DifferingStreamsShift(ts, us, c);
    }
    forall c | ShiftedBy(ts, us, c)
      ensures Folded(a) == Folded(b)
    {
      ShiftedStreamsDiffer(ts, us, c);
      ShiftedFoldsAgree(a, b, c);
    }
  }

  /** The dual-stage pipeline: nothing for fewer than two bytes, else the digest of the fold. */
  function Conditioned(raw: seq<byte>, sha256: Hash): seq<byte> {
    if |raw| < 2 then [] else sha256(Folded(raw))
  }

  lemma ConditionedFold(raw: seq<byte>, fold: seq<byte>, sha256: Hash)
    requires |raw| >= 2 && FoldOf(raw, fold)
    ensures Conditioned(raw, sha256) == sha256(fold)
  {
    hide Folded;
    OneFold(raw);
  }

  /** The kernel of the whole pipeline: two batches are conditioned alike under every hash exactly when
      all pairs of timestamps differ by one and the same byte repeated eight times. */
  lemma {:induction false} PipelineKernel(ts: seq<bv64>, us: seq<bv64>)
    requires ts != [] && us != []
    ensures (forall sha256: Hash :: Conditioned(Serialised(ts), sha256) == Conditioned(Serialised(us), sha256))
            <==> exists c: byte :: ShiftedBy(ts, us, c)
  {
    hide Serialised, ShiftedBy, Folded;
    StageOneKernel(ts, us);
    var a, b := Folded(Serialised(ts)), Folded(Serialised(us));
    hide Marked;
    if a != b {
      var telling: Hash := x => Marked(x == a);
      TwoDigests();
      assert telling(a) == Marked(true) && telling(b) == Marked(false);
      assert Conditioned(Serialised(ts), telling) != Conditioned(Serialised(us), telling);
    }
  }

  /** Two different digests. */
  function Marked(one: bool): Digest { seq(32, _ => if one then 1 else 0) }

  lemma TwoDigests()
    ensures Marked(true) != Marked(false)
  {
    assert Marked(true)[0] != Marked(false)[0];
  }

  method Sha256Conditioner(input: seq<byte>, sha256: Hash) returns (output: seq<byte>)
    ensures output == if input == [] then [] else sha256(input)
  {
    if |input| == 0 {
      return [];
    }
    output := sha256(input);
  }

  method DualStageWhitening(raw: seq<byte>, sha256: Hash) returns (output: seq<byte>)
    ensures output == Conditioned(raw, sha256)
    ensures |output| == if |raw| < 2 then 0 else 32
    ensures |raw| >= 2 ==> forall fold :: FoldOf(raw, fold) ==> output == sha256(fold)
  {
    hide Folded;
    if |raw| >= 2 {
      OneFold(raw);
    }
    var stageOne := ParityPreprocess(raw);
    if |stageOne| == 0 {
      return [];
    }
    output := Sha256Conditioner(stageOne, sha256);
  }

  // ---- Bit counts ----

  const MAX_UINT32: int := 0xFFFF_FFFF

  function ToBitCount(bytesCount: int): (bits: int)
    ensures 0 <= bits <= MAX_UINT32
    ensures bits == 0 <==> bytesCount <= 0
    ensures bits == MAX_UINT32 <==> bytesCount >= MAX_UINT32 / 8
    ensures bits < MAX_UINT32 ==> bits == 8 * Max(bytesCount, 0)
  {
    if bytesCount <= 0 then 0
    else if bytesCount >= MAX_UINT32 / 8 then MAX_UINT32
    else bytesCount * 8
  }

  /** The clamp starts one byte early: at the boundary of its guard, and only there, 8n would still
      fit. */
  lemma BitCountClampsOneEarly(bytesCount: nat)
    ensures ToBitCount(bytesCount) == Min(8 * bytesCount, MAX_UINT32) <==> bytesCount != MAX_UINT32 / 8
  {
  }
}
