/** The quick tests on a whole batch: bit balance, runs of bits, longest byte repetition and share of
    the commonest byte. */
module BatchTests {
  import opened Samples
  import opened Bits
  import opened Counting
  import opened HealthTests

  // ======================= Frequency =======================

  lemma RatioThreshold(ones: nat, total: nat, percent: nat)
    requires total > 0
    ensures ones as real / total as real >= percent as real / 100.0 <==> 100 * ones >= percent * total
    ensures ones as real / total as real <= percent as real / 100.0 <==> 100 * ones <= percent * total
  {
    var r := ones as real / total as real;
    assert r * total as real == ones as real;
    var q := percent as real / 100.0;
    if r >= q {
      assert (r - q) * total as real >= 0.0;
    } else {
      assert (q - r) * total as real > 0.0;
    }
    if r <= q {
      assert (q - r) * total as real >= 0.0;
    } else {
      assert (r - q) * total as real > 0.0;
    }
  }

  /** Share of one-bits, and whether it lies between 45 and 55 percent. */
  method FrequencyTest(data: seq<byte>) returns (ratio: real, passed: bool)
    ensures data == [] ==> ratio == 0.0 && !passed
    ensures data != [] ==>
              var ones, total := Count(BitsOf(data), true), 8 * |data|;
              && ratio == ones as real / total as real
              && (passed <==> 45 * total <= 100 * ones <= 55 * total)
  {
    if |data| == 0 {
      return 0.0, false;
    }
    var ones := 0;
    for i := 0 to |data|
      invariant ones == Count(BitsOf(data[..i]), true)
    {
      ones := ones + Count(ByteBits(data[i]), true);
      assert data[..i + 1] == data[..i] + [data[i]];
      BitsOfSnoc(data[..i], data[i]);
      CountAppend(BitsOf(data[..i]), ByteBits(data[i]), true);
    }
    assert data[..|data|] == data;
    var total := |data| * 8;
    ratio := ones as real / total as real;
    RatioThreshold(ones, total, 45);
    RatioThreshold(ones, total, 55);
    passed := ratio >= 0.45 && ratio <= 0.55;
  }

  // ======================= Runs of bits =======================

  /** Number of maximal blocks of equal bits: one, and one more at each change. */
  function Runs(bits: seq<bool>): (n: nat)
    ensures bits != [] ==> n >= 1
    decreases |bits|
  {
    if bits == [] then 0
    else if |bits| == 1 then 1
    else Runs(bits[..|bits| - 1]) + if bits[|bits| - 1] == bits[|bits| - 2] then 0 else 1
  }

  /** Joining two streams joins their runs, and merges two of them exactly when the bits at the joint
      agree. */
  lemma {:induction false} RunsAppend(a: seq<bool>, b: seq<bool>)
    requires a != [] && b != []
    ensures Runs(a + b) == Runs(a) + Runs(b) - if a[|a| - 1] == b[0] then 1 else 0
    decreases |b|
  {
    var s := a + b;
    assert s[..|s| - 1] == a + b[..|b| - 1];
    if |b| > 1 {
      RunsAppend(a, b[..|b| - 1]);
      assert s[|s| - 2] == b[|b| - 2];
    } else {
      assert a + b[..0] == a;
    }
  }

  /** Each run of one bit value lies between two runs of the other. */
  lemma {:induction false} RunsAgainstEach(bits: seq<bool>)
    requires bits != []
    ensures Runs(bits) <= 2 * Count(bits, true) + if bits[|bits| - 1] then 0 else 1
    ensures Runs(bits) <= 2 * Count(bits, false) + if bits[|bits| - 1] then 1 else 0
    decreases |bits|
  {
    if |bits| > 1 {
      RunsAgainstEach(bits[..|bits| - 1]);
    } else {
      assert bits == [] + [bits[0]];
      CountSnoc([], bits[0], true);
      CountSnoc([], bits[0], false);
    }
  }

  lemma {:induction false} OnesAndZeros(bits: seq<bool>)
    ensures Count(bits, true) + Count(bits, false) == |bits|
    decreases |bits|
  {
    if bits != [] {
      var d, last := bits[..|bits| - 1], bits[|bits| - 1];
      OnesAndZeros(d);
      assert bits == d + [last];
      CountSnoc(d, last, true);
      CountSnoc(d, last, false);
    }
  }

  /** On data: runs of a concatenation, and runs against the number of one-bits. */
  lemma {:induction false} RunsOfData(a: seq<byte>, b: seq<byte>)
    requires a != [] && b != []
    ensures Runs(BitsOf(a + b)) == Runs(BitsOf(a)) + Runs(BitsOf(b))
            - if Bit(a[|a| - 1], 0) == Bit(b[0], 7) then 1 else 0
    ensures var ones := Count(BitsOf(a), true);
            Runs(BitsOf(a)) <= 2 * ones + 1 && Runs(BitsOf(a)) <= 2 * (8 * |a| - ones) + 1
  {
    hide Runs, Bit, BitsOf, ByteBits;
    BitsOfAppend(a, b);
    RunsAppend(BitsOf(a), BitsOf(b));
    BitsOfAt(a, |a| - 1, 7);
    BitsOfAt(b, 0, 0);
    RunsAgainstEach(BitsOf(a));
    OnesAndZeros(BitsOf(a));
  }

  function BitValue(value: byte, i: nat): byte
    requires i < 8
  {
    (value >> i) & 1
  }

  /** The value v stands for the bit b. */
  predicate Shows(v: byte, b: bool) { v == if b then 1 else 0 }

  lemma BitValueShows(value: byte, i: nat)
    requires i < 8
    ensures Shows(BitValue(value, i), ByteBits(value)[7 - i])
  {
    LowBit(value >> i);
  }

  lemma ShownDiffer(v: byte, b: bool, w: byte, c: bool)
    requires Shows(v, b) && Shows(w, c)
    ensures v == w <==> b == c
  {
  }

  lemma {:induction false} RunsSnoc(bits: seq<bool>, b: bool)
    requires bits != []
    ensures Runs(bits + [b]) == Runs(bits) + if bits[|bits| - 1] == b then 0 else 1
  {
    assert (bits + [b])[..|bits|] == bits;
  }

  /** The nested loop over bytes and bits counts the runs of the MSB-first stream; it passes when the
      count is within a tenth of half the number of bits. */
  method RunsTest(data: seq<byte>) returns (runs: nat, passed: bool)
    ensures data == [] ==> runs == 0 && !passed
    ensures data != [] ==>
              var n := 8 * |data|;
              && runs == Runs(BitsOf(data))
              && (passed <==> 10 * Max(2 * runs - n, n - 2 * runs) < n)
  {
    hide Runs, BitsOf, ByteBits, Bit, BitValue, Shows;
    if |data| == 0 {
      return 0, false;
    }
    runs := 1;
    var lastBit := BitValue(data[0], 7);
    var firstByte := true;
    ghost var seen := [ByteBits(data[0])[0]];
    BitValueShows(data[0], 7);
    OneRun(seen);
    for k := 0 to |data|
      invariant firstByte == (k == 0)
      invariant seen != [] && runs == Runs(seen) && Shows(lastBit, seen[|seen| - 1])
      invariant seen == if k == 0 then [ByteBits(data[0])[0]] else BitsOf(data[..k])
    {
      var b := data[k];
      var startBit := 7;
      if firstByte {
        startBit := 6;
        firstByte := false;
      }
      ghost var bits := ByteBits(b);
      ghost var base := if k == 0 then [] else BitsOf(data[..k]);
      var i := startBit;
      while i >= 0
        invariant -1 <= i <= 7
        invariant seen == base + bits[..7 - i] && seen != []
        invariant runs == Runs(seen) && Shows(lastBit, seen[|seen| - 1])
      {
        var bit := BitValue(b, i);
        BitValueShows(b, i);
        ShownDiffer(bit, bits[7 - i], lastBit, seen[|seen| - 1]);
        RunsSnoc(seen, bits[7 - i]);
        assert base + bits[..7 - (i - 1)] == seen + [bits[7 - i]];
        seen := seen + [bits[7 - i]];
        if bit != lastBit {
          runs := runs + 1;
          lastBit := bit;
        }
        i := i - 1;
      }
      assert bits[..8] == bits;
      assert data[..k + 1] == data[..k] + [b];
      BitsOfSnoc(data[..k], b);
      EmptyBits(data[..0]);
    }
    assert data[..|data|] == data;
    var n := |data| * 8;
    var expected := n as real / 2.0;
    var deviation := Absolute(runs as real - expected) / expected;
    DeviationThreshold(runs, n);
    passed := deviation < 0.1;
  }

  lemma OneRun(bits: seq<bool>)
    requires |bits| == 1
    ensures Runs(bits) == 1
  {
  }

  lemma EmptyBits(data: seq<byte>)
    requires data == []
    ensures BitsOf(data) == []
  {
  }

  function Absolute(x: real): real { if x < 0.0 then -x else x }

  lemma QuotientBelow(d: real, e: real, c: real)
    requires e > 0.0
    ensures d / e < c <==> d < c * e
  {
    var q := d / e;
    assert q * e == d;
    if q < c {
      assert (c - q) * e > 0.0;
    } else {
      assert (q - c) * e >= 0.0;
    }
  }

  lemma DeviationThreshold(runs: nat, n: nat)
    requires n > 0
    ensures Absolute(runs as real - n as real / 2.0) / (n as real / 2.0) < 0.1 <==>
            10 * Max(2 * runs - n, n - 2 * runs) < n
  {
    var e := n as real / 2.0;
    var d := Absolute(runs as real - e);
    QuotientBelow(d, e, 0.1);
    var twice := 2 * runs - n;
    assert twice as real == 2.0 * (runs as real - e);
    assert 2.0 * d == Max(twice, -twice) as real;
  }

  // ======================= Summary statistics =======================

  /** The part of the data that a window covers. */
  function Windowed(data: seq<byte>, window: nat): (w: seq<byte>)
    ensures |w| == Min(|data|, window) && w <= data
  {
    data[..Min(|data|, window)]
  }

  /** Longest repetition within the window, none for an empty one. */
  method ComputeRctStat(data: seq<byte>, window: nat) returns (stat: real)
    ensures stat == LongestRun(Windowed(data, window)) as real
  {
    if |data| == 0 || window == 0 {
      return 0.0;
    }
    var maxRepetitions, currentRepetitions := 1, 1;
    var lastByte := data[0];
    var i := 1;
    while i < |data| && i < window
      invariant 1 <= i <= Min(|data|, window)
      invariant lastByte == data[i - 1]
      invariant currentRepetitions == TrailingRun(data[..i])
      invariant maxRepetitions == LongestRun(data[..i])
      decreases |data| - i
    {
      assert data[..i + 1][..i] == data[..i];
      if data[i] == lastByte {
        currentRepetitions := currentRepetitions + 1;
        if currentRepetitions > maxRepetitions {
          maxRepetitions := currentRepetitions;
        }
      } else {
        currentRepetitions := 1;
        lastByte := data[i];
      }
      i := i + 1;
    }
    stat := maxRepetitions as real;
  }

  /** Share of the commonest byte within the window, zero for an empty one. */
  method ComputeAptStat(data: seq<byte>, window: nat) returns (stat: real)
    ensures var w := Windowed(data, window);
            stat == if w == [] then 0.0 else MaxCount(w) as real / |w| as real
  {
    if |data| == 0 || window == 0 {
      return 0.0;
    }
    var windowSize := window;
    if windowSize > |data| {
      windowSize := |data|;
    }
    var freq := Tally(data[..windowSize]);
    var value, maxFreq := HighestCount(freq, 0, data[..windowSize]);
    stat := maxFreq as real / windowSize as real;
  }

  // ---- The batch statistics and the streaming tests ----

  /** The streaming repetition test passes a block exactly when the batch statistic over a window that
      covers it stays below the limit. */
  lemma {:induction false} RctStreamingEqualsBatch(cutoff: int, data: seq<byte>, window: nat)
    requires cutoff >= 1 && window >= |data|
    ensures RctBlock(RctFresh(cutoff), data).1 <==> LongestRun(Windowed(data, window)) < RctLimit(cutoff)
  {
    assert Windowed(data, window) == data;
    RctCharacterisation(cutoff, data);
  }

  /** A window that fails the streaming proportion test has a batch share of at least cutoff / window; and
      when the window opens with its commonest byte, one that passes has a smaller share. */
  lemma AptFailureShowsInBatch(s: Apt, data: seq<byte>)
    requires s.AtWindowStart() && |data| >= s.window
    ensures var w := Windowed(data, s.window);
            var failed := !AptBlock(s, w).1;
            && (failed ==> MaxCount(w) >= s.cutoff)
            && (Count(w, w[0]) == MaxCount(w) ==> (failed <==> MaxCount(w) >= s.cutoff))
  {
    var w := Windowed(data, s.window);
    AptWholeWindow(s, w);
    MaxCountBounds(w, w[0]);
  }
}
