/** Von Neumann debiasing on bit streams: the pair filter, the conjugation that shows it fair, and
    the fairness statement itself as a probability. */
module VonNeumann {
  import opened Samples

  /** The pair filter on a bit stream: of each pair of unequal bits keep the first. */
  function Debiased(bits: seq<bool>): (out: seq<bool>)
    ensures 2 * |out| <= |bits|
    decreases |bits|
  {
    if |bits| < 2 then []
    else (if bits[0] != bits[1] then [bits[0]] else []) + Debiased(bits[2..])
  }

  lemma {:induction false} DebiasedAppend(a: seq<bool>, b: seq<bool>)
    requires |a| % 2 == 0
    ensures Debiased(a + b) == Debiased(a) + Debiased(b)
    decreases |a|
  {
    if a == [] {
      assert a + b == b;
    } else {
      assert (a + b)[2..] == a[2..] + b;
      DebiasedAppend(a[2..], b);
    }
  }

  /** The next pair contributes its first bit if its bits differ. */
  lemma DebiasedPair(bits: seq<bool>, k: nat)
    requires 2 * k + 2 <= |bits|
    ensures Debiased(bits[..2 * k + 2]) == Debiased(bits[..2 * k]) +
            (if bits[2 * k] == bits[2 * k + 1] then [] else [bits[2 * k]])
  {
    var pair := [bits[2 * k], bits[2 * k + 1]];
    assert bits[..2 * k + 2] == bits[..2 * k] + pair;
    DebiasedAppend(bits[..2 * k], pair);
    DebiasedOne(pair);
  }

  lemma DebiasedOne(pair: seq<bool>)
    requires |pair| == 2
    ensures Debiased(pair) == if pair[0] == pair[1] then [] else [pair[0]]
  {
    assert pair[2..] == [];
  }

  // ---- Fairness ----

  function Masked(a: seq<bool>, b: seq<bool>): (x: seq<bool>)
    requires |a| == |b|
    ensures |x| == |a|
  {
    seq(|a|, i requires 0 <= i < |a| => a[i] != b[i])
  }

  /** Swap the unequal pairs that the mask, one entry per extracted bit, selects. */
  function SwapMasked(bits: seq<bool>, mask: seq<bool>): (out: seq<bool>)
    requires |mask| == |Debiased(bits)|
    ensures |out| == |bits|
    decreases |bits|
  {
    if |bits| < 2 then bits
    else if bits[0] == bits[1] then bits[..2] + SwapMasked(bits[2..], mask)
    else (if mask[0] then [bits[1], bits[0]] else bits[..2]) + SwapMasked(bits[2..], mask[1..])
  }

  /** The first pair of bits and its image under the mask. */
  lemma SwapMaskedFirst(bits: seq<bool>, mask: seq<bool>)
    requires |bits| >= 2 && |mask| == |Debiased(bits)|
    ensures var out, p, r := SwapMasked(bits, mask), bits[..2], bits[2..];
            && bits == p + r
            && (if p[0] == p[1] then out == p + SwapMasked(r, mask)
                else out == (if mask[0] then [p[1], p[0]] else p) + SwapMasked(r, mask[1..]))
  {
  }

  /** Swapping flips exactly the masked extracted bits. */
  lemma {:induction false} SwapMaskedFlips(bits: seq<bool>, mask: seq<bool>)
    requires |mask| == |Debiased(bits)|
    ensures Debiased(SwapMasked(bits, mask)) == Masked(Debiased(bits), mask)
    decreases |bits|
  {
    if |bits| >= 2 {
      SwapMaskedFirst(bits, mask);
      var out, p, r := SwapMasked(bits, mask), bits[..2], bits[2..];
      var q, mask' := out[..2], if p[0] == p[1] then mask else mask[1..];
      assert out == q + SwapMasked(r, mask');
      SwapMaskedFlips(r, mask');
      DebiasedAppend(p, r);
      DebiasedAppend(q, SwapMasked(r, mask'));
      DebiasedOne(p);
      DebiasedOne(q);
      if p[0] != p[1] {
        MaskedAppend([p[0]], [mask[0]], Debiased(r), mask');
        assert mask == [mask[0]] + mask' && Debiased(bits) == [p[0]] + Debiased(r);
        assert Masked([p[0]], [mask[0]]) == [q[0]];
      } else {
        assert Debiased(bits) == Debiased(r) && Debiased(out) == Debiased(SwapMasked(r, mask'));
      }
    }
  }

  lemma MaskedAppend(a: seq<bool>, x: seq<bool>, b: seq<bool>, y: seq<bool>)
    requires |a| == |x| && |b| == |y|
    ensures Masked(a + b, x + y) == Masked(a, x) + Masked(b, y)
  {
  }

  /** Swapping keeps the number of one-bits. */
  lemma {:induction false} SwapMaskedKeepsOnes(bits: seq<bool>, mask: seq<bool>)
    requires |mask| == |Debiased(bits)|
    ensures Count(SwapMasked(bits, mask), true) == Count(bits, true)
    decreases |bits|
  {
    if |bits| >= 2 {
      SwapMaskedFirst(bits, mask);
      var out, p, r := SwapMasked(bits, mask), bits[..2], bits[2..];
      var q, mask' := out[..2], if p[0] == p[1] then mask else mask[1..];
      assert out == q + SwapMasked(r, mask');
      SwapMaskedKeepsOnes(r, mask');
      CountAppend(p, r, true);
      CountAppend(q, SwapMasked(r, mask'), true);
      PairCount(p);
      PairCount(q);
    }
  }

  /** Swapping twice restores the stream. */
  lemma {:induction false} SwapMaskedUndone(bits: seq<bool>, mask: seq<bool>)
    requires |mask| == |Debiased(bits)|
    ensures |Debiased(SwapMasked(bits, mask))| == |mask|
    ensures SwapMasked(SwapMasked(bits, mask), mask) == bits
    decreases |bits|
  {
    SwapMaskedFlips(bits, mask);
    if |bits| >= 2 {
      SwapMaskedFirst(bits, mask);
      var out, p, r := SwapMasked(bits, mask), bits[..2], bits[2..];
      var q, mask' := out[..2], if p[0] == p[1] then mask else mask[1..];
      assert out == q + SwapMasked(r, mask') && out[2..] == SwapMasked(r, mask');
      SwapMaskedUndone(r, mask');
      SwapMaskedFirst(out, mask);
    }
  }

  lemma PairCount(p: seq<bool>)
    requires |p| == 2
    ensures Count(p, true) == (if p[0] then 1 else 0) + (if p[1] then 1 else 0)
  {
    assert p[..1] == [p[0]];
    assert Count([p[0]], true) == (if p[0] then 1 else 0) + Count([p[0]][..0], true);
  }

  /** Probability that n further independent tosses, each a one-bit with probability p, complete
      the stream so that the extractor yields target. */
  ghost function Probability(stream: seq<bool>, n: nat, p: real, target: seq<bool>): real
    decreases n
  {
    if n == 0 then (if Debiased(stream) == target then 1.0 else 0.0)
    else
      Toss(p, Probability(stream + [true], n - 1, p, target), Probability(stream + [false], n - 1, p, target))
  }

  /** Expected value of one toss: x when it is a one-bit, y when it is a zero-bit. */
  ghost function Toss(p: real, x: real, y: real): real { p * x + (1.0 - p) * y }

  /** A leading pair either says nothing or fixes the first extracted bit. */
  lemma {:induction false} LeadingPair(pair: seq<bool>, stream: seq<bool>, n: nat, p: real, target: seq<bool>)
    requires |pair| == 2
    ensures Probability(pair + stream, n, p, target) ==
            if pair[0] == pair[1] then Probability(stream, n, p, target)
            else if target != [] && target[0] == pair[0] then Probability(stream, n, p, target[1..])
            else 0.0
    decreases n
  {
    if n == 0 {
      DebiasedAppend(pair, stream);
      assert pair[2..] == [];
      assert Debiased(pair) == if pair[0] != pair[1] then [pair[0]] else [];
      if pair[0] == pair[1] {
        assert Debiased(pair + stream) == Debiased(stream);
      } else {
        assert Debiased(pair + stream) == [pair[0]] + Debiased(stream);
        if target != [] && target[0] == pair[0] {
          assert target == [pair[0]] + target[1..];
          assert ([pair[0]] + Debiased(stream))[1..] == Debiased(stream);
        }
      }
    } else {
      assert pair + stream + [true] == pair + (stream + [true]);
      assert pair + stream + [false] == pair + (stream + [false]);
      LeadingPair(pair, stream + [true], n - 1, p, target);
      LeadingPair(pair, stream + [false], n - 1, p, target);
    }
  }

  /** A pair of tosses that agree keeps the target, one that differs settles its first bit. */
  ghost function Mix(p: real, same: real, step: real): real {
    (p * p + (1.0 - p) * (1.0 - p)) * same + p * (1.0 - p) * step
  }

  ghost function TwoTosses(p: real, tt: real, tf: real, ft: real, ff: real): real {
    Toss(p, Toss(p, tt, tf), Toss(p, ft, ff))
  }

  lemma TwoTossesMix(p: real, same: real, tf: real, ft: real)
    ensures TwoTosses(p, same, tf, ft, same) == Mix(p, same, tf + ft)
  {
  }

  lemma UnfoldTwoTosses(n: nat, p: real, target: seq<bool>)
    requires n >= 2
    ensures Probability([], n, p, target) ==
            TwoTosses(p, Probability([true, true], n - 2, p, target), Probability([true, false], n - 2, p, target),
                      Probability([false, true], n - 2, p, target), Probability([false, false], n - 2, p, target))
  {
    hide Debiased, Toss;
    assert [] + [true] == [true] && [] + [false] == [false];
    assert [true] + [true] == [true, true] && [true] + [false] == [true, false];
    assert [false] + [true] == [false, true] && [false] + [false] == [false, false];
  }

  /** Conditioning on the first pair. */
  lemma FirstPair(n: nat, p: real, target: seq<bool>)
    requires n >= 2
    ensures Probability([], n, p, target) ==
            Mix(p, Probability([], n - 2, p, target),
                if target == [] then 0.0 else Probability([], n - 2, p, target[1..]))
  {
    hide Debiased, Toss, Mix;
    var same := Probability([], n - 2, p, target);
    var tf, ft := Probability([true, false], n - 2, p, target), Probability([false, true], n - 2, p, target);
    UnfoldTwoTosses(n, p, target);
    LeadingPair([true, true], [], n - 2, p, target);
    LeadingPair([true, false], [], n - 2, p, target);
    LeadingPair([false, true], [], n - 2, p, target);
    LeadingPair([false, false], [], n - 2, p, target);
    assert [true, true] + [] == [true, true] && [true, false] + [] == [true, false];
    assert [false, true] + [] == [false, true] && [false, false] + [] == [false, false];
    TwoTossesMix(p, same, tf, ft);
  }

  lemma OneBitYieldsNothing(bit: bool, p: real, u: seq<bool>, v: seq<bool>)
    requires |u| == |v|
    ensures Probability([] + [bit], 0, p, u) == Probability([] + [bit], 0, p, v)
  {
    assert Debiased([] + [bit]) == [];
  }

  /** Under any bias and any number of tosses, all extracted strings of one length are equally
      likely. */
  lemma {:induction false} VonNeumannIsFair(n: nat, p: real, u: seq<bool>, v: seq<bool>)
    requires |u| == |v|
    ensures Probability([], n, p, u) == Probability([], n, p, v)
    decreases n
  {
    hide Debiased, Toss, Mix;
    if n >= 2 {
      FirstPair(n, p, u);
      FirstPair(n, p, v);
      VonNeumannIsFair(n - 2, p, u, v);
      if u != [] {
        VonNeumannIsFair(n - 2, p, u[1..], v[1..]);
      }
    } else if n == 1 {
      OneBitYieldsNothing(true, p, u, v);
      OneBitYieldsNothing(false, p, u, v);
    } else {
      assert Debiased([]) == [];
    }
  }
}
