/** The continuous health tests of section 4.4 of NIST SP 800-90B: the Repetition Count Test and
    the Adaptive Proportion Test, as automata over samples. Each class method is tied to a
    transition function; what the automata decide is then stated without them, through runs and
    counts. */
module HealthTests {
  import opened Samples

  // ======================= Repetition Count Test =======================

  datatype Rct = Rct(cutoff: int, last: byte, count: int, initialized: bool)

  function RctFresh(cutoff: int): (s: Rct)
    ensures s.cutoff == (if cutoff <= 0 then 40 else cutoff) && s.count == 0 && !s.initialized
  {
    Rct(if cutoff <= 0 then 40 else cutoff, 0, 0, false)
  }

  function RctReset(s: Rct): Rct { Rct(s.cutoff, 0, 0, false) }

  /** One sample: the next state and the verdict. */
  function RctStep(s: Rct, sample: byte): (Rct, bool) {
    if !s.initialized then (Rct(s.cutoff, sample, 1, true), true)
    else if sample == s.last then (s.(count := s.count + 1), s.count + 1 < s.cutoff)
    else (s.(count := 1, last := sample), true)
  }

  function RctBlock(s: Rct, data: seq<byte>): (Rct, bool) { Feed(RctStep, s, data) }

  /** Shortest run that the test can reject: a single sample never fails. */
  function RctLimit(cutoff: int): nat { Max(cutoff, 2) }

  lemma {:induction false} RctBlockKeepsCutoff(s: Rct, data: seq<byte>)
    ensures RctBlock(s, data).0.cutoff == s.cutoff
    decreases |data|
  {
    if data != [] {
      var (t, ok) := RctStep(s, data[0]);
      if ok {
        RctBlockKeepsCutoff(t, data[1..]);
      }
    }
  }

  /** From a fresh state a block passes exactly when no run reaches the limit, and the state after
      a pass is the last sample with the length of the run it ends. */
  lemma {:induction false} RctCharacterisation(cutoff: int, data: seq<byte>)
    requires cutoff >= 1
    ensures RctBlock(RctFresh(cutoff), data).1 <==> !HasRun(data, RctLimit(cutoff))
    ensures RctBlock(RctFresh(cutoff), data).1 <==> LongestRun(data) < RctLimit(cutoff)
    ensures RctBlock(RctFresh(cutoff), data).1 && data != [] ==>
              RctBlock(RctFresh(cutoff), data).0 == Rct(cutoff, data[|data| - 1], TrailingRun(data), true)
  {
    LongestRunIsLongest(data, RctLimit(cutoff));
    if data != [] {
      RctCharacterisation(cutoff, data[..|data| - 1]);
      FeedSnoc(RctStep, RctFresh(cutoff), data);
    }
  }

  /** Whatever samples the automaton has already seen, a block it passes holds no run that reaches
      the limit. */
  lemma {:induction false} RctPassedBlockHasNoLongRun(s: Rct, data: seq<byte>)
    requires s.count >= 0
    ensures var (t, ok) := RctBlock(s, data);
            ok ==> LongestRun(data) < RctLimit(s.cutoff) && !HasRun(data, RctLimit(s.cutoff))
    ensures var (t, ok) := RctBlock(s, data);
            ok && data != [] ==> t.initialized && t.last == data[|data| - 1] && t.count >= TrailingRun(data)
    ensures RctBlock(s, data).0.count >= 0
  {
    LongestRunIsLongest(data, RctLimit(s.cutoff));
    if data != [] {
      RctPassedBlockHasNoLongRun(s, data[..|data| - 1]);
      FeedSnoc(RctStep, s, data);
      RctBlockKeepsCutoff(s, data[..|data| - 1]);
    }
  }

  /** A block with a run that reaches the limit fails from every state. */
  lemma RctLongRunAlwaysFails(s: Rct, data: seq<byte>)
    requires s.count >= 0 && HasRun(data, RctLimit(s.cutoff))
    ensures !RctBlock(s, data).1
  {
    RctPassedBlockHasNoLongRun(s, data);
  }

  /** The state after samples fed one by one, whatever their verdicts. */
  function RctThrough(s: Rct, data: seq<byte>): Rct {
    if data == [] then s else RctStep(RctThrough(s, data[..|data| - 1]), data[|data| - 1]).0
  }

  /** Sample by sample, past failures too: the state holds the last sample and the length of the run it
      ends, and a sample fails exactly when it makes that run reach the limit. */
  lemma {:induction false} RctEverySample(cutoff: int, data: seq<byte>, x: byte)
    requires cutoff >= 1
    ensures data != [] ==>
              RctThrough(RctFresh(cutoff), data) == Rct(cutoff, data[|data| - 1], TrailingRun(data), true)
    ensures RctStep(RctThrough(RctFresh(cutoff), data), x).1 <==> TrailingRun(data + [x]) < Max(cutoff, 2)
    decreases |data|
  {
    if data != [] {
      RctEverySample(cutoff, data[..|data| - 1], x);
    }
    assert (data + [x])[..|data|] == data;
  }

  class RepetitionCountTest {
    var cutoff: int
    var lastSample: byte
    var repeatCount: int
    var initialized: bool

    ghost function State(): Rct
      reads this
    {
      Rct(cutoff, lastSample, repeatCount, initialized)
    }

    constructor (cutoff: int)
      ensures State() == RctFresh(cutoff)
    {
      this.cutoff := if cutoff <= 0 then 40 else cutoff;
      lastSample, repeatCount, initialized := 0, 0, false;
    }

    method Test(sample: byte) returns (ok: bool)
      modifies this
      ensures (State(), ok) == RctStep(old(State()), sample)
    {
      if !initialized {
        lastSample := sample;
        repeatCount := 1;
        initialized := true;
        return true;
      }
      if sample == lastSample {
        repeatCount := repeatCount + 1;
        if repeatCount >= cutoff {
          return false;
        }
      } else {
        repeatCount := 1;
        lastSample := sample;
      }
      return true;
    }

    method TestBlock(samples: seq<byte>) returns (ok: bool)
      modifies this
      ensures (State(), ok) == RctBlock(old(State()), samples)
    {
      for i := 0 to |samples|
        invariant RctBlock(old(State()), samples) == RctBlock(State(), samples[i..])
      {
        var passed := Test(samples[i]);
        if !passed {
          return false;
        }
        assert samples[i..][1..] == samples[i + 1..];
      }
      return true;
    }

    method Reset()
      modifies this
      ensures State() == RctReset(old(State()))
    {
      lastSample, repeatCount, initialized := 0, 0, false;
    }
  }

  // ======================= Adaptive Proportion Test =======================

  datatype Apt = Apt(cutoff: int, window: int, first: byte, matches: int, samples: int) {
    predicate Valid() { cutoff >= 1 && window >= 1 && 0 <= samples < window }

    /** The next sample opens a window. */
    predicate AtWindowStart() { Valid() && samples == 0 }
  }

  function AptFresh(cutoff: int, window: int): (s: Apt)
    ensures s.AtWindowStart() && s.matches == 0
    ensures s.cutoff == (if cutoff <= 0 then 605 else cutoff) && s.window == (if window <= 0 then 4096 else window)
  {
    Apt(if cutoff <= 0 then 605 else cutoff, if window <= 0 then 4096 else window, 0, 0, 0)
  }

  function AptReset(s: Apt): Apt { Apt(s.cutoff, s.window, 0, 0, 0) }

  /** The state after counting a sample, before the window check. */
  function AptCounted(s: Apt, sample: byte): Apt {
    if s.samples == 0 then s.(first := sample, matches := 1, samples := 1)
    else s.(matches := s.matches + (if sample == s.first then 1 else 0), samples := s.samples + 1)
  }

  function AptClosed(s: Apt): Apt { s.(samples := 0, matches := 0) }

  function AptStep(s: Apt, sample: byte): (Apt, bool) {
    var t := AptCounted(s, sample);
    if t.samples >= t.window then (AptClosed(t), t.matches < t.cutoff) else (t, true)
  }

  function AptBlock(s: Apt, data: seq<byte>): (Apt, bool) { Feed(AptStep, s, data) }

  /** Samples short of a whole window are counted and never fail. */
  lemma {:induction false} AptPartialWindow(s: Apt, data: seq<byte>)
    requires s.AtWindowStart() && 1 <= |data| < s.window
    ensures AptBlock(s, data) ==
            (Apt(s.cutoff, s.window, data[0], Count(data, data[0]), |data|), true)
  {
    FeedSnoc(AptStep, s, data);
    if |data| > 1 {
      AptPartialWindow(s, data[..|data| - 1]);
    } else {
      assert data[..|data| - 1] == [];
      assert Count(data[..|data| - 1], data[0]) == 0;
    }
  }

  /** A whole window passes exactly when its first sample occurs fewer than cutoff times. */
  lemma AptWholeWindow(s: Apt, data: seq<byte>)
    requires s.AtWindowStart() && |data| == s.window
    ensures AptBlock(s, data) ==
            (Apt(s.cutoff, s.window, data[0], 0, 0), Count(data, data[0]) < s.cutoff)
  {
    FeedSnoc(AptStep, s, data);
    if |data| > 1 {
      AptPartialWindow(s, data[..|data| - 1]);
    } else {
      assert data[..|data| - 1] == [];
      assert Count(data[..|data| - 1], data[0]) == 0;
    }
  }

  /** Index of the first sample of the window that sample number i falls into. */
  function WindowStart(i: nat, window: nat): (start: nat)
    requires window >= 1
    ensures start <= i < start + window
  {
    if i < window then 0 else window + WindowStart(i - window, window)
  }

  /** WindowStart counts in whole windows. */
  lemma {:induction false} WindowStartIsMultiple(k: nat, i: nat, window: nat)
    requires window >= 1 && k * window <= i < k * window + window
    ensures WindowStart(i, window) == k * window
  {
    if k > 0 {
      assert k * window == (k - 1) * window + window;
      assert (k - 1) * window >= 0;
      WindowStartIsMultiple(k - 1, i - window, window);
    }
  }

  /** Every complete, non-overlapping window of data has fewer than cutoff copies of the sample
      that opens it. */
  ghost predicate WindowsPass(data: seq<byte>, cutoff: int, window: nat) {
    forall k: nat :: k * window + window <= |data| && window >= 1 ==> WindowPasses(data, cutoff, window, k)
  }

  ghost predicate WindowPasses(data: seq<byte>, cutoff: int, window: nat, k: nat)
    requires k * window + window <= |data| && window >= 1
  {
    Count(data[k * window..k * window + window], data[k * window]) < cutoff
  }

  lemma WindowsPassSplit(data: seq<byte>, cutoff: int, window: nat)
    requires 1 <= window <= |data|
    ensures WindowsPass(data, cutoff, window) <==>
            Count(data[..window], data[0]) < cutoff && WindowsPass(data[window..], cutoff, window)
  {
    var rest := data[window..];
    assert data[0 * window..0 * window + window] == data[..window];
    assert WindowPasses(data, cutoff, window, 0) <==> Count(data[..window], data[0]) < cutoff;
    forall k: nat | k * window + window <= |rest|
      ensures (k + 1) * window + window <= |data|
      ensures WindowPasses(rest, cutoff, window, k) <==> WindowPasses(data, cutoff, window, k + 1)
    {
      assert (k + 1) * window == k * window + window;
      assert rest[k * window..k * window + window] == data[(k + 1) * window..(k + 1) * window + window];
    }
    if WindowsPass(data, cutoff, window) {
      assert 0 * window + window <= |data|;
      forall k: nat | k * window + window <= |rest|
        ensures WindowPasses(rest, cutoff, window, k)
      {
        assert WindowPasses(data, cutoff, window, k + 1);
      }
    }
    if Count(data[..window], data[0]) < cutoff && WindowsPass(rest, cutoff, window) {
      forall k: nat | k * window + window <= |data|
        ensures WindowPasses(data, cutoff, window, k)
      {
        if k > 0 {
          assert k * window == (k - 1) * window + window;
          assert WindowPasses(rest, cutoff, window, k - 1);
        }
      }
    }
  }

  lemma NoCompleteWindow(data: seq<byte>, cutoff: int, window: nat)
    requires |data| < window
    ensures WindowsPass(data, cutoff, window)
  {
    forall k: nat
      ensures k * window + window > |data|
    {
      assert k * window >= 0;
    }
  }

  /** The state that passed samples leave behind: the opening sample, count and size of the window
      still open, or the opening sample of the window just completed. */
  ghost function OpenWindow(s: Apt, data: seq<byte>): Apt
    requires s.Valid() && data != []
  {
    var open := data[WindowStart(|data|, s.window)..];
    Apt(s.cutoff, s.window, data[WindowStart(|data| - 1, s.window)],
        if open == [] then 0 else Count(open, open[0]), |open|)
  }

  lemma OpenWindowShifts(s: Apt, t: Apt, head: seq<byte>, rest: seq<byte>)
    requires s.Valid() && t.Valid() && |head| == s.window && rest != []
    requires s.window == t.window && s.cutoff == t.cutoff
    ensures OpenWindow(s, head + rest) == OpenWindow(t, rest)
  {
    var data := head + rest;
    assert WindowStart(|data|, s.window) == s.window + WindowStart(|rest|, s.window);
    assert rest[WindowStart(|rest|, s.window)..] == data[WindowStart(|data|, s.window)..];
    assert WindowStart(|data| - 1, s.window) == s.window + WindowStart(|rest| - 1, s.window);
  }

  /** From the start of a window a block passes exactly when all its complete windows do; the
      state after a pass describes the window left open. */
  lemma {:induction false} AptCharacterisation(s: Apt, data: seq<byte>)
    requires s.AtWindowStart() && s.matches == 0
    ensures AptBlock(s, data).1 <==> WindowsPass(data, s.cutoff, s.window)
    ensures AptBlock(s, data).1 && data != [] ==> AptBlock(s, data).0 == OpenWindow(s, data)
    decreases |data|
  {
    if |data| < s.window {
      NoCompleteWindow(data, s.cutoff, s.window);
      if data != [] {
        AptPartialWindow(s, data);
        assert data[0..] == data;
      }
    } else {
      var head, rest := data[..s.window], data[s.window..];
      assert data == head + rest;
      AptWholeWindow(s, head);
      FeedAppend(AptStep, s, head, rest);
      WindowsPassSplit(data, s.cutoff, s.window);
      var t := AptBlock(s, head).0;
      AptCharacterisation(t, rest);
      if rest != [] {
        OpenWindowShifts(s, t, head, rest);
      } else {
        assert AptBlock(t, rest) == (t, true);
        assert WindowStart(|data|, s.window) == |data| && WindowStart(|data| - 1, s.window) == 0;
        assert data[|data|..] == [];
      }
    }
  }

  /** The state after samples fed one by one, whatever their verdicts. */
  function AptThrough(s: Apt, data: seq<byte>): Apt {
    if data == [] then s else AptStep(AptThrough(s, data[..|data| - 1]), data[|data| - 1]).0
  }

  lemma WindowStartNext(i: nat, window: nat)
    requires window >= 1
    ensures var start := WindowStart(i, window);
            WindowStart(i + 1, window) == if i + 1 - start == window then i + 1 else start
    decreases i
  {
    if i >= window {
      WindowStartNext(i - window, window);
    }
  }

  /** The window open after data. */
  function OpenSamples(data: seq<byte>, window: nat): (open: seq<byte>)
    requires window >= 1
    ensures |open| < window && |open| <= |data|
  {
    data[WindowStart(|data|, window)..]
  }

  lemma OpenSamplesNext(data: seq<byte>, x: byte, window: nat)
    requires window >= 1
    ensures var w := OpenSamples(data, window) + [x];
            && OpenSamples(data + [x], window) == (if |w| == window then [] else w)
            && WindowStart(|data|, window) <= |data| && (data + [x])[WindowStart(|data|, window)] == w[0]
  {
    WindowStartNext(|data|, window);
  }

  lemma OpenedBy(data: seq<byte>, window: nat)
    requires window >= 1 && data != [] && OpenSamples(data, window) != []
    ensures data[WindowStart(|data| - 1, window)] == OpenSamples(data, window)[0]
  {
    WindowStartNext(|data| - 1, window);
  }

  /** The state that goes with an open window. */
  predicate Describes(t: Apt, s: Apt, open: seq<byte>) {
    && t.cutoff == s.cutoff && t.window == s.window && t.samples == |open|
    && (open != [] ==> t.first == open[0] && t.matches == Count(open, open[0]))
  }

  lemma OpenWindowDescribes(s: Apt, data: seq<byte>)
    requires s.Valid() && data != []
    ensures Describes(OpenWindow(s, data), s, OpenSamples(data, s.window))
  {
    hide Count;
    if OpenSamples(data, s.window) != [] {
      OpenedBy(data, s.window);
    }
  }

  /** The state after a sample that makes the open window w. */
  function Grown(s: Apt, w: seq<byte>): Apt
    requires w != []
  {
    if |w| == s.window then Apt(s.cutoff, s.window, w[0], 0, 0)
    else Apt(s.cutoff, s.window, w[0], Count(w, w[0]), |w|)
  }

  lemma OpenWindowGrows(s: Apt, data: seq<byte>, x: byte)
    requires s.Valid()
    ensures OpenWindow(s, data + [x]) == Grown(s, OpenSamples(data, s.window) + [x])
  {
    hide Count, WindowStart;
    OpenSamplesNext(data, x, s.window);
  }

  lemma StepGrows(t: Apt, s: Apt, open: seq<byte>, x: byte)
    requires s.Valid() && |open| < s.window && Describes(t, s, open)
    ensures var w := open + [x];
            AptStep(t, x) == (Grown(s, w), |w| < s.window || Count(w, w[0]) < s.cutoff)
  {
    var w := open + [x];
    CountSnoc(open, x, w[0]);
    if open == [] {
      assert Count(open, w[0]) == 0;
    }
    hide Count;
  }

  /** One more sample after data. */
  lemma OpenWindowStep(s: Apt, data: seq<byte>, x: byte)
    requires s.AtWindowStart() && s.matches == 0
    ensures var w := OpenSamples(data, s.window) + [x];
            AptStep(if data == [] then s else OpenWindow(s, data), x) ==
            (OpenWindow(s, data + [x]), |w| < s.window || Count(w, w[0]) < s.cutoff)
  {
    hide OpenSamples, OpenWindow, AptStep, Grown, Count;
    if data != [] {
      OpenWindowDescribes(s, data);
    }
    OpenWindowGrows(s, data, x);
    StepGrows(if data == [] then s else OpenWindow(s, data), s, OpenSamples(data, s.window), x);
  }

  /** Sample by sample, past failures too: the state describes the open window, and a sample fails exactly
      when it completes a window in which the opening sample occurs cutoff times or more. */
  lemma {:induction false} AptEverySample(s: Apt, data: seq<byte>, x: byte)
    requires s.AtWindowStart() && s.matches == 0
    ensures data != [] ==> AptThrough(s, data) == OpenWindow(s, data)
    ensures var w := OpenSamples(data, s.window) + [x];
            AptStep(AptThrough(s, data), x).1 <==> |w| < s.window || Count(w, w[0]) < s.cutoff
    decreases |data|
  {
    hide OpenSamples, OpenWindow, AptStep;
    OpenWindowStep(s, data, x);
    if data != [] {
      var d, y := data[..|data| - 1], data[|data| - 1];
      AptEverySample(s, d, y);
      OpenWindowStep(s, d, y);
      assert d + [y] == data;
    }
  }

  // ---- The variant that checks the count after every sample ----

  function EagerStep(s: Apt, sample: byte): (Apt, bool) {
    var t := AptCounted(s, sample);
    (if t.samples >= t.window then AptClosed(t) else t, t.matches < t.cutoff)
  }

  function EagerBlock(s: Apt, data: seq<byte>): (Apt, bool) { Feed(EagerStep, s, data) }

  /** Inside one window the eager variant follows the same state for as long as it passes, and it
      passes all of it exactly when the final count is below the cutoff. */
  lemma {:induction false} EagerWithinWindow(s: Apt, data: seq<byte>)
    requires s.AtWindowStart() && 1 <= |data| <= s.window
    ensures EagerBlock(s, data).1 <==> Count(data, data[0]) < s.cutoff
    ensures EagerBlock(s, data).1 ==>
              (EagerBlock(s, data).0 ==
               if |data| == s.window then Apt(s.cutoff, s.window, data[0], 0, 0)
               else Apt(s.cutoff, s.window, data[0], Count(data, data[0]), |data|))
  {
    hide Feed;
    var d, x := data[..|data| - 1], data[|data| - 1];
    FeedSnoc(EagerStep, s, data);
    if d != [] {
      EagerWithinWindow(s, d);
    } else {
      FeedNothing(EagerStep, s);
      assert Count(d, data[0]) == 0;
    }
  }

  /** Checking only complete windows finds the same first bad window as checking after every
      sample: when the window test fails, the eager one failed earlier in the same window; when it
      passes, the eager one can fail only in the window still open. */
  lemma {:induction false} LazyAndEagerFailInSameWindow(s: Apt, data: seq<byte>)
    requires s.AtWindowStart() && s.matches == 0
    ensures SameFirstBadWindow(s, data)
    decreases |data|
  {
    if |data| < s.window {
      if data != [] {
        AptPartialWindow(s, data);
      }
    } else {
      var head, rest := data[..s.window], data[s.window..];
      assert data == head + rest;
      AptWholeWindow(s, head);
      if AptBlock(s, head).1 {
        LazyAndEagerFailInSameWindow(AptBlock(s, head).0, rest);
        GoodWindowShifts(s, head, rest);
      } else {
        BadWindowDecides(s, head, rest);
      }
    }
  }

  ghost predicate SameFirstBadWindow(s: Apt, data: seq<byte>)
    requires s.Valid()
  {
    var lazy, eager := Passed(AptStep, s, data), Passed(EagerStep, s, data);
    && (lazy < |data| ==> eager <= lazy && WindowStart(eager, s.window) == WindowStart(lazy, s.window))
    && (lazy == |data| && eager < |data| ==> WindowStart(eager, s.window) == WindowStart(|data|, s.window))
  }

  lemma GoodWindowShifts(s: Apt, head: seq<byte>, rest: seq<byte>)
    requires s.AtWindowStart() && |head| == s.window && AptBlock(s, head).1
    requires AptBlock(s, head).0 == Apt(s.cutoff, s.window, head[0], 0, 0)
    requires SameFirstBadWindow(AptBlock(s, head).0, rest)
    ensures SameFirstBadWindow(s, head + rest)
  {
    AptWholeWindow(s, head);
    EagerWithinWindow(s, head);
    FeedAppend(AptStep, s, head, rest);
    FeedAppend(EagerStep, s, head, rest);
    var t := AptBlock(s, head).0;
    assert EagerBlock(s, head) == (t, true);
    var lazy, eager := Passed(AptStep, t, rest), Passed(EagerStep, t, rest);
    assert Passed(AptStep, s, head + rest) == s.window + lazy;
    assert Passed(EagerStep, s, head + rest) == s.window + eager;
  }

  lemma BadWindowDecides(s: Apt, head: seq<byte>, rest: seq<byte>)
    requires s.AtWindowStart() && |head| == s.window && !AptBlock(s, head).1
    ensures SameFirstBadWindow(s, head + rest)
  {
    AptWholeWindow(s, head);
    EagerWithinWindow(s, head);
    FeedAppend(AptStep, s, head, rest);
    FeedAppend(EagerStep, s, head, rest);
    AptFailsAtWindowEnd(s, head);
  }

  /** A window that fails does so at its last sample. */
  lemma AptFailsAtWindowEnd(s: Apt, head: seq<byte>)
    requires s.AtWindowStart() && |head| == s.window && !AptBlock(s, head).1
    ensures Passed(AptStep, s, head) == s.window - 1
  {
    var d, x := head[..|head| - 1], head[|head| - 1];
    assert head == d + [x];
    FeedAppend(AptStep, s, d, [x]);
    FeedAppend(EagerStep, s, d, [x]);
    if d != [] {
      AptPartialWindow(s, d);
    }
  }

  class AdaptiveProportionTest {
    var cutoff: int
    var windowSize: int
    var firstSample: byte
    var matchCount: int
    var sampleCount: int

    ghost function State(): Apt
      reads this
    {
      Apt(cutoff, windowSize, firstSample, matchCount, sampleCount)
    }

    constructor (cutoff: int, windowSize: int)
      ensures State() == AptFresh(cutoff, windowSize)
    {
      this.cutoff := if cutoff <= 0 then 605 else cutoff;
      this.windowSize := if windowSize <= 0 then 4096 else windowSize;
      firstSample, matchCount, sampleCount := 0, 0, 0;
    }

    method Test(sample: byte) returns (ok: bool)
      modifies this
      ensures (State(), ok) == AptStep(old(State()), sample)
    {
      if sampleCount == 0 {
        firstSample := sample;
        matchCount := 1;
      } else {
        if sample == firstSample {
          matchCount := matchCount + 1;
        }
      }
      sampleCount := sampleCount + 1;
      if sampleCount >= windowSize {
        var passed := matchCount < cutoff;
        sampleCount := 0;
        matchCount := 0;
        return passed;
      }
      return true;
    }

    method TestBlock(samples: seq<byte>) returns (ok: bool)
      modifies this
      ensures (State(), ok) == AptBlock(old(State()), samples)
    {
      for i := 0 to |samples|
        invariant AptBlock(old(State()), samples) == AptBlock(State(), samples[i..])
      {
        var passed := Test(samples[i]);
        if !passed {
          return false;
        }
        assert samples[i..][1..] == samples[i + 1..];
      }
      return true;
    }

    method Reset()
      modifies this
      ensures State() == AptReset(old(State()))
    {
      firstSample, matchCount, sampleCount := 0, 0, 0;
    }
  }
}
