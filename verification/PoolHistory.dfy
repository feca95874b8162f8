/** Whole runs of the pool: every sequence of batches and extraction requests, in lock order, from a
    fresh pool. A ledger records what was made, released and trimmed; the theorems say where every
    byte went and what the health gate let through. */
module PoolHistory {
  import opened Samples
  import opened Events
  import opened HealthTests
  import opened Whitening
  import opened Pool

  datatype Op = AddOp(events: seq<TDCEvent>) | ExtractOp(n: int)

  /** Bytes handed out, with their place in everything ever made. */
  datatype Release = Release(at: nat, data: seq<byte>)

  datatype Ledger = Ledger(
    pool: PoolState,
    events: seq<TDCEvent>,       // all events accepted so far
    made: seq<byte>,             // all conditioned outputs so far, concatenated
    trimmed: nat,                // bytes dropped because the pool was full
    releases: seq<Release>,      // successful extractions, oldest first
    sinceFailure: seq<byte>,     // released since the last health failure of either test
    sinceRctReset: seq<byte>,    // put through the repetition test since its last reset, released or not
    sinceAptFailure: seq<byte>)  // released since the last APT failure

  function Empty(minSize: int, maxSize: int): Ledger {
    var p := Fresh(minSize, maxSize);
    Ledger(p, [], [], 0, [], [], [], [])
  }

  /** How many of the bytes ever made have left the pool. */
  function Cursor(l: Ledger): int { |l.made| - |l.pool.bytes| }

  function Step(l: Ledger, op: Op, sha256: Hash): Ledger
    requires Bounded(l.pool)
  {
    match op
    case AddOp(events) =>
      var c := Conditioning(events, sha256);
      var after := AfterAdd(l.pool, events, sha256);
      l.(pool := after, events := l.events + events, made := l.made + c,
         trimmed := l.trimmed + (|l.pool.bytes| + |c| - |after.bytes|))
    case ExtractOp(n) =>
      var (after, outcome) := Extract(l.pool, n);
      match outcome
      case Released(data) =>
        l.(pool := after, releases := l.releases + [Release(Max(0, Cursor(l)), data)],
           sinceFailure := l.sinceFailure + data, sinceRctReset := l.sinceRctReset + data,
           sinceAptFailure := l.sinceAptFailure + data)
      case Unavailable => l.(pool := after)
      case RctFailure => l.(pool := after, sinceFailure := [], sinceRctReset := [])
      case AptFailure =>
        l.(pool := after, sinceFailure := [], sinceRctReset := l.sinceRctReset + l.pool.bytes[..n],
           sinceAptFailure := [])
  }

  predicate Bounded(p: PoolState) {
    1 <= p.minSize <= p.maxSize && |p.bytes| <= p.maxSize && |p.raw| <= DEFAULT_MAX_RAW_EVENTS
  }

  lemma StepKeepsBounded(l: Ledger, op: Op, sha256: Hash)
    requires Bounded(l.pool)
    ensures Bounded(Step(l, op, sha256).pool)
  {
  }

  function Run(l: Ledger, ops: seq<Op>, sha256: Hash): (r: Ledger)
    requires Bounded(l.pool)
    ensures Bounded(r.pool)
  {
    if ops == [] then l
    else
      StepKeepsBounded(Run(l, ops[..|ops| - 1], sha256), ops[|ops| - 1], sha256);
      Step(Run(l, ops[..|ops| - 1], sha256), ops[|ops| - 1], sha256)
  }

  // ---- Provenance and conservation ----

  function Total(releases: seq<Release>): nat {
    if releases == [] then 0
    else Total(releases[..|releases| - 1]) + |releases[|releases| - 1].data|
  }

  /** Where the last release ended. */
  function Frontier(releases: seq<Release>): nat {
    if releases == [] then 0 else releases[|releases| - 1].at + |releases[|releases| - 1].data|
  }

  /** Each release is the slice of made at its place, and places follow one another without overlap. */
  ghost predicate InOrderSlices(releases: seq<Release>, made: seq<byte>) {
    forall i: nat :: i < |releases| ==> SliceAt(releases, made, i)
  }

  predicate SliceAt(releases: seq<Release>, made: seq<byte>, i: nat)
    requires i < |releases|
  {
    var r := releases[i];
    && Frontier(releases[..i]) <= r.at
    && r.at + |r.data| <= |made|
    && r.data == made[r.at..r.at + |r.data|]
  }

  /** The pool is what follows the cursor, the releases came in order from before it, and every byte
      made was delivered, trimmed, or is still stored. */
  ghost predicate Accounted(l: Ledger) {
    && Bounded(l.pool)
    && 0 <= Cursor(l)
    && l.pool.bytes == l.made[Cursor(l)..]
    && InOrderSlices(l.releases, l.made)
    && Frontier(l.releases) <= Cursor(l)
    && |l.made| == Total(l.releases) + l.trimmed + |l.pool.bytes|
    && l.pool.raw == Suffix(l.events, DEFAULT_MAX_RAW_EVENTS)
  }

  lemma AddKeepsAccounts(l: Ledger, events: seq<TDCEvent>, sha256: Hash)
    requires Accounted(l)
    ensures Accounted(Step(l, AddOp(events), sha256))
    ensures Cursor(l) <= Cursor(Step(l, AddOp(events), sha256))
  {
    hide Conditioning;
    var c, l' := Conditioning(events, sha256), Step(l, AddOp(events), sha256);
    SuffixOfAppend(l.events, events, DEFAULT_MAX_RAW_EVENTS);
    assert events == [] ==> l.events + events == l.events && l.made + c == l.made;
    assert l'.pool.bytes == Suffix(l.pool.bytes + c, l.pool.maxSize);
    assert l.pool.bytes + c == l'.made[Cursor(l)..];
    SlicesSurviveGrowth(l.releases, l.made, c);
  }

  lemma SlicesSurviveGrowth(releases: seq<Release>, made: seq<byte>, c: seq<byte>)
    requires InOrderSlices(releases, made)
    ensures InOrderSlices(releases, made + c)
  {
    hide Frontier;
    forall i: nat | i < |releases|
      ensures SliceAt(releases, made + c, i)
    {
      var r := releases[i];
      assert SliceAt(releases, made, i);
      assert (made + c)[r.at..r.at + |r.data|] == made[r.at..r.at + |r.data|];
    }
  }

  lemma SlicesSnoc(releases: seq<Release>, made: seq<byte>, r: Release)
    requires InOrderSlices(releases, made) && Frontier(releases) <= r.at
    requires r.at + |r.data| <= |made| && r.data == made[r.at..r.at + |r.data|]
    ensures InOrderSlices(releases + [r], made)
    ensures Frontier(releases + [r]) == r.at + |r.data|
    ensures Total(releases + [r]) == Total(releases) + |r.data|
  {
    var all := releases + [r];
    assert all[..|releases|] == releases;
    forall i: nat | i < |all|
      ensures SliceAt(all, made, i)
    {
      if i < |releases| {
        assert all[..i] == releases[..i];
        assert SliceAt(releases, made, i);
      }
    }
  }

  lemma ExtractKeepsAccounts(l: Ledger, n: int, sha256: Hash)
    requires Accounted(l)
    ensures Accounted(Step(l, ExtractOp(n), sha256))
    ensures Cursor(l) <= Cursor(Step(l, ExtractOp(n), sha256))
  {
    hide Feed, InOrderSlices, Frontier, Total;
    var outcome := Extract(l.pool, n).1;
    if outcome.Released? {
      var at := Cursor(l);
      assert outcome.data == l.pool.bytes[..n] == l.made[at..at + n];
      assert l.pool.bytes[n..] == l.made[at + n..];
      SlicesSnoc(l.releases, l.made, Release(at, outcome.data));
    }
  }

  /** One operation keeps the accounts and only extends the history. */
  lemma StepExtends(l: Ledger, op: Op, sha256: Hash)
    requires Accounted(l)
    ensures var l' := Step(l, op, sha256);
            Accounted(l') && Cursor(l) <= Cursor(l') && l.releases <= l'.releases && l.made <= l'.made
  {
    hide Feed, InOrderSlices, Frontier, Total, Conditioning;
    match op
    case AddOp(events) => AddKeepsAccounts(l, events, sha256);
    case ExtractOp(n) => ExtractKeepsAccounts(l, n, sha256);
  }

  lemma {:induction false} BoundsStay(l: Ledger, ops: seq<Op>, sha256: Hash)
    requires Bounded(l.pool)
    ensures Run(l, ops, sha256).pool.minSize == l.pool.minSize && Run(l, ops, sha256).pool.maxSize == l.pool.maxSize
  {
    hide Conditioning, RctBlock, AptBlock, Suffix;
    if ops != [] {
      BoundsStay(l, ops[..|ops| - 1], sha256);
    }
  }

  /** Over every run from an empty pool all bytes are accounted for. */
  lemma {:induction false} PoolConservation(minSize: int, maxSize: int, ops: seq<Op>, sha256: Hash)
    ensures Bounded(Empty(minSize, maxSize).pool)
    ensures Accounted(Run(Empty(minSize, maxSize), ops, sha256))
    ensures var l := Run(Empty(minSize, maxSize), ops, sha256);
            && l.pool.raw == Suffix(l.events, 4096)
            && (l.pool.minSize, l.pool.maxSize) == EffectiveBounds(minSize, maxSize)
  {
    BoundsStay(Empty(minSize, maxSize), ops, sha256);
    if ops != [] {
      hide Step, InOrderSlices, Frontier, Total;
      PoolConservation(minSize, maxSize, ops[..|ops| - 1], sha256);
      StepExtends(Run(Empty(minSize, maxSize), ops[..|ops| - 1], sha256), ops[|ops| - 1], sha256);
    } else {
      assert Total([]) == 0;
    }
  }

  /** What has left the pool never returns: along every run the cursor only moves forward, and the
      releases already made stay as they were. */
  lemma {:induction false} CursorNeverMovesBack(l: Ledger, ops: seq<Op>, sha256: Hash)
    requires Accounted(l)
    ensures var r := Run(l, ops, sha256);
            Accounted(r) && Cursor(l) <= Cursor(r) && l.releases <= r.releases && l.made <= r.made
  {
    hide Step, Cursor, InOrderSlices, Frontier, Total;
    if ops != [] {
      CursorNeverMovesBack(l, ops[..|ops| - 1], sha256);
      StepExtends(Run(l, ops[..|ops| - 1], sha256), ops[|ops| - 1], sha256);
    }
  }

  /** No byte is handed out twice: releases occupy disjoint places, in order. */
  lemma {:induction false} ReleasesAreDisjoint(releases: seq<Release>, made: seq<byte>, i: nat, j: nat)
    requires InOrderSlices(releases, made) && i < j < |releases|
    ensures releases[i].at + |releases[i].data| <= releases[j].at
    decreases j
  {
    assert SliceAt(releases, made, j);
    assert Frontier(releases[..j]) == releases[j - 1].at + |releases[j - 1].data| by {
      assert releases[..j][|releases[..j]| - 1] == releases[j - 1];
    }
    if i < j - 1 {
      ReleasesAreDisjoint(releases, made, i, j - 1);
    }
  }

  /** A refused extraction leaves the stored bytes, the history and the cursor as they were. */
  lemma RefusalKeepsBytes(l: Ledger, n: int, sha256: Hash)
    requires Bounded(l.pool) && !Extract(l.pool, n).1.Released?
    ensures var l' := Step(l, ExtractOp(n), sha256);
            && l'.pool.bytes == l.pool.bytes && l'.pool.raw == l.pool.raw
            && Cursor(l') == Cursor(l) && l'.releases == l.releases && l'.made == l.made
  {
  }

  // ---- What the health gate guarantees ----

  /** The repetition test has seen exactly the bytes since its reset, the proportion test exactly those
      released since its last failure. */
  ghost predicate Gated(l: Ledger) {
    && RctBlock(RctFresh(RCT_CUTOFF), l.sinceRctReset) == (l.pool.rct, true)
    && AptBlock(AptFresh(APT_CUTOFF, APT_WINDOW), l.sinceAptFailure) == (l.pool.apt, true)
    && EndsWith(l.sinceRctReset, l.sinceFailure)
  }

  predicate EndsWith(s: seq<byte>, t: seq<byte>) {
    |t| <= |s| && s[|s| - |t|..] == t
  }

  lemma AptBlockKeepsParameters(s: Apt, data: seq<byte>)
    ensures AptBlock(s, data).0.cutoff == s.cutoff && AptBlock(s, data).0.window == s.window
    decreases |data|
  {
    if data != [] {
      var (t, ok) := AptStep(s, data[0]);
      if ok {
        AptBlockKeepsParameters(t, data[1..]);
      }
    }
  }

  lemma ExtractKeepsGate(l: Ledger, n: int, sha256: Hash)
    requires Bounded(l.pool) && Gated(l)
    ensures Gated(Step(l, ExtractOp(n), sha256))
  {
    hide Feed;
    var outcome := Extract(l.pool, n).1;
    if !outcome.Unavailable? {
      var block := l.pool.bytes[..n];
      EmptyBlock();
      FeedAppend(RctStep, RctFresh(RCT_CUTOFF), l.sinceRctReset, block);
      RctBlockKeepsCutoff(RctFresh(RCT_CUTOFF), l.sinceRctReset);
      RctBlockKeepsCutoff(l.pool.rct, block);
      AptBlockKeepsParameters(AptFresh(APT_CUTOFF, APT_WINDOW), l.sinceAptFailure);
      AptBlockKeepsParameters(l.pool.apt, block);
      FeedAppend(AptStep, AptFresh(APT_CUTOFF, APT_WINDOW), l.sinceAptFailure, block);
      assert EndsWith(l.sinceRctReset + block, l.sinceFailure + block);
    }
  }

  lemma EmptyBlock()
    ensures forall s: Rct :: RctBlock(s, []) == (s, true)
    ensures forall s: Apt :: AptBlock(s, []) == (s, true)
  {
  }

  lemma {:induction false} GateHolds(minSize: int, maxSize: int, ops: seq<Op>, sha256: Hash)
    ensures Gated(Run(Empty(minSize, maxSize), ops, sha256))
  {
    if ops != [] {
      var before := Run(Empty(minSize, maxSize), ops[..|ops| - 1], sha256);
      GateHolds(minSize, maxSize, ops[..|ops| - 1], sha256);
      match ops[|ops| - 1]
      case AddOp(events) =>
      case ExtractOp(n) => ExtractKeepsGate(before, n, sha256);
    }
  }

  /** In every run: the bytes released since the last health failure hold no run of 40 equal bytes,
      however the requests cut them, nor do those the repetition test has seen since its reset; the
      4096-byte windows that tile the bytes released since the last APT failure, repetition failures
      notwithstanding, each have fewer than 605 copies of their first byte. */
  lemma HealthGate(minSize: int, maxSize: int, ops: seq<Op>, sha256: Hash)
    ensures var l := Run(Empty(minSize, maxSize), ops, sha256);
            && !HasRun(l.sinceFailure, 40) && !HasRun(l.sinceRctReset, 40)
            && WindowsPass(l.sinceAptFailure, 605, 4096)
  {
    var l := Run(Empty(minSize, maxSize), ops, sha256);
    GateHolds(minSize, maxSize, ops, sha256);
    RctCharacterisation(RCT_CUTOFF, l.sinceRctReset);
    AptCharacterisation(AptFresh(APT_CUTOFF, APT_WINDOW), l.sinceAptFailure);
    if HasRun(l.sinceFailure, RCT_CUTOFF) {
      var head := l.sinceRctReset[..|l.sinceRctReset| - |l.sinceFailure|];
      assert l.sinceRctReset == head + l.sinceFailure;
      RunOfTail(head, l.sinceFailure, RCT_CUTOFF);
    }
  }

  /** What a request meets in any run, exactly. It is unavailable when it asks for nothing, or when fewer
      bytes are stored than it asks for or than the reserve. Else it fails the repetition test when its
      bytes complete a run of 40 with those seen since the reset, else the proportion test when they
      complete a bad window with those released since its last failure, else it gets the oldest bytes,
      and they leave the store. */
  lemma RefusedExactly(minSize: int, maxSize: int, ops: seq<Op>, n: int, sha256: Hash)
    ensures var l := Run(Empty(minSize, maxSize), ops, sha256);
            var p, (after, outcome) := l.pool, Extract(l.pool, n);
            && (outcome.Unavailable? <==> n <= 0 || |p.bytes| < n || |p.bytes| < p.minSize)
            && (!outcome.Unavailable? ==>
                var block := p.bytes[..n];
                var repeats := HasRun(l.sinceRctReset + block, 40);
                var biased := !WindowsPass(l.sinceAptFailure + block, 605, 4096);
                && (outcome.RctFailure? <==> repeats)
                && (outcome.AptFailure? <==> !repeats && biased)
                && (outcome.Released? <==> !repeats && !biased)
                && (outcome.Released? ==> outcome.data == block))
            && after.bytes == if outcome.Released? then p.bytes[n..] else p.bytes
  {
    var l := Run(Empty(minSize, maxSize), ops, sha256);
    if 0 < n <= |l.pool.bytes| {
      var block := l.pool.bytes[..n];
      hide RctBlock, AptBlock, WindowsPass, HasRun, Run;
      GateHolds(minSize, maxSize, ops, sha256);
      FeedAppend(RctStep, RctFresh(RCT_CUTOFF), l.sinceRctReset, block);
      RctCharacterisation(RCT_CUTOFF, l.sinceRctReset + block);
      FeedAppend(AptStep, AptFresh(APT_CUTOFF, APT_WINDOW), l.sinceAptFailure, block);
      AptCharacterisation(AptFresh(APT_CUTOFF, APT_WINDOW), l.sinceAptFailure + block);
    }
  }

  /** The bytes a run releases. */
  function Delivered(releases: seq<Release>): seq<byte> {
    if releases == [] then [] else Delivered(releases[..|releases| - 1]) + releases[|releases| - 1].data
  }

  /** The failures a stretch is free of: those of both tests, or of the proportion test alone. */
  datatype Failures = OfEither | OfProportion {
    predicate Has(outcome: Outcome) { if OfEither? then outcome.HealthFailure() else outcome.AptFailure? }

    /** What was released since the last of them. */
    function Since(l: Ledger): seq<byte> { if OfEither? then l.sinceFailure else l.sinceAptFailure }
  }

  /** No extraction of the stretch fails in the given way. */
  ghost predicate FreeOf(kind: Failures, l: Ledger, ops: seq<Op>, sha256: Hash)
    requires Bounded(l.pool)
  {
    forall k :: 0 <= k < |ops| ==>
      ops[k].ExtractOp? ==> !kind.Has(Extract(Run(l, ops[..k], sha256).pool, ops[k].n).1)
  }

  /** A stretch free of failures only adds what it delivers to what was released since the last one. */
  lemma {:induction false} StretchExtends(kind: Failures, l: Ledger, ops: seq<Op>, sha256: Hash)
    requires Bounded(l.pool) && FreeOf(kind, l, ops, sha256)
    ensures var r := Run(l, ops, sha256);
            l.releases <= r.releases && kind.Since(r) == kind.Since(l) + Delivered(r.releases[|l.releases|..])
  {
    hide Step, Extract;
    var r := Run(l, ops, sha256);
    if ops == [] {
      assert r.releases[|l.releases|..] == [];
    } else {
      var d, op := ops[..|ops| - 1], ops[|ops| - 1];
      var before := Run(l, d, sha256);
      forall k | 0 <= k < |d| && d[k].ExtractOp?
        ensures !kind.Has(Extract(Run(l, d[..k], sha256).pool, d[k].n).1)
      {
        assert d[..k] == ops[..k] && d[k] == ops[k];
      }
      StretchExtends(kind, l, d, sha256);
      StretchStepExtends(kind, l, before, op, sha256);
    }
  }

  lemma StretchStepExtends(kind: Failures, l: Ledger, before: Ledger, op: Op, sha256: Hash)
    requires Bounded(before.pool) && l.releases <= before.releases
    requires op.ExtractOp? ==> !kind.Has(Extract(before.pool, op.n).1)
    requires kind.Since(before) == kind.Since(l) + Delivered(before.releases[|l.releases|..])
    ensures var r := Step(before, op, sha256);
            l.releases <= r.releases && kind.Since(r) == kind.Since(l) + Delivered(r.releases[|l.releases|..])
  {
    hide Feed, Conditioning;
    var r := Step(before, op, sha256);
    if op.ExtractOp? && Extract(before.pool, op.n).1.Released? {
      var added := r.releases[|l.releases|..];
      assert added[..|added| - 1] == before.releases[|l.releases|..];
    }
  }

  /** Every stretch of every run: from wherever a healthy stretch starts, what it delivers holds no
      run of 40 equal bytes, even across requests. */
  lemma {:induction false} HealthyStretchHasNoLongRun(minSize: int, maxSize: int, before: seq<Op>,
        stretch: seq<Op>, sha256: Hash)
    requires FreeOf(OfEither, Run(Empty(minSize, maxSize), before, sha256), stretch, sha256)
    ensures var l := Run(Empty(minSize, maxSize), before, sha256);
            var r := Run(l, stretch, sha256);
            l.releases <= r.releases && !HasRun(Delivered(r.releases[|l.releases|..]), 40)
  {
    var l := Run(Empty(minSize, maxSize), before, sha256);
    var r := Run(l, stretch, sha256);
    StretchExtends(OfEither, l, stretch, sha256);
    RunAppend(Empty(minSize, maxSize), before, stretch, sha256);
    HealthGate(minSize, maxSize, before + stretch, sha256);
    var tail := Delivered(r.releases[|l.releases|..]);
    if HasRun(tail, RCT_CUTOFF) {
      RunOfTail(l.sinceFailure, tail, RCT_CUTOFF);
    }
  }

  /** And from wherever a stretch without APT failure starts, whatever the repetition test refused
      meanwhile: what it delivers, after the part of the open window delivered before it, is tiled by
      windows that pass. With no window open, what it delivers is tiled from its first byte. */
  lemma {:induction false} StretchIsTiled(minSize: int, maxSize: int, before: seq<Op>, stretch: seq<Op>,
        sha256: Hash)
    requires FreeOf(OfProportion, Run(Empty(minSize, maxSize), before, sha256), stretch, sha256)
    ensures var l := Run(Empty(minSize, maxSize), before, sha256);
            var r := Run(l, stretch, sha256);
            && l.releases <= r.releases && |OpenPart(l)| == l.pool.apt.samples
            && WindowsPass(OpenPart(l) + Delivered(r.releases[|l.releases|..]), 605, 4096)
  {
    var l := Run(Empty(minSize, maxSize), before, sha256);
    var r := Run(l, stretch, sha256);
    StretchExtends(OfProportion, l, stretch, sha256);
    RunAppend(Empty(minSize, maxSize), before, stretch, sha256);
    HealthGate(minSize, maxSize, before + stretch, sha256);
    var tail, k := Delivered(r.releases[|l.releases|..]), WindowStart(|l.sinceAptFailure|, APT_WINDOW);
    assert r.sinceAptFailure[k..] == OpenPart(l) + tail;
    WindowsPassFrom(r.sinceAptFailure, |l.sinceAptFailure|, APT_CUTOFF, APT_WINDOW);
    GateHolds(minSize, maxSize, before, sha256);
    AptCharacterisation(AptFresh(APT_CUTOFF, APT_WINDOW), l.sinceAptFailure);
  }

  /** What of the window now open has been delivered. */
  function OpenPart(l: Ledger): seq<byte> {
    l.sinceAptFailure[WindowStart(|l.sinceAptFailure|, APT_WINDOW)..]
  }

  lemma {:induction false} WindowsPassFrom(data: seq<byte>, i: nat, cutoff: int, window: nat)
    requires window >= 1 && i <= |data| && WindowsPass(data, cutoff, window)
    ensures WindowsPass(data[WindowStart(i, window)..], cutoff, window)
  {
    if i < window {
      assert data[0..] == data;
    } else {
      WindowsPassSplit(data, cutoff, window);
      WindowsPassFrom(data[window..], i - window, cutoff, window);
      assert data[window..][WindowStart(i - window, window)..] == data[WindowStart(i, window)..];
    }
  }

  lemma {:induction false} RunAppend(l: Ledger, a: seq<Op>, b: seq<Op>, sha256: Hash)
    requires Bounded(l.pool)
    ensures Run(l, a + b, sha256) == Run(Run(l, a, sha256), b, sha256)
  {
    if b == [] {
      assert a + b == a;
    } else {
      assert (a + b)[..|a + b| - 1] == a + b[..|b| - 1];
      RunAppend(l, a, b[..|b| - 1], sha256);
    }
  }

  // ---- After a failure ----

  /** A repetition failure is forgotten: the next extraction that is not unavailable fails the same test
      exactly when its own bytes hold a run of 40. The open window of the other test is as it was. */
  lemma RctFailureIsForgotten(p: PoolState, n: int, m: nat)
    requires p.rct.cutoff == RCT_CUTOFF && Extract(p, n).1.RctFailure? && 0 < m <= |p.bytes|
    ensures var q := Extract(p, n).0;
            && q.bytes == p.bytes && q.apt == p.apt
            && (Extract(q, m).1.RctFailure? <==> HasRun(p.bytes[..m], RCT_CUTOFF))
  {
    RctBlockKeepsCutoff(p.rct, p.bytes[..n]);
    RctCharacterisation(RCT_CUTOFF, p.bytes[..m]);
    assert RctReset(RctBlock(p.rct, p.bytes[..n]).0) == RctFresh(RCT_CUTOFF);
  }

  /** A proportion failure opens a new window but does not take back what the repetition test saw: the
      bytes refused are still stored and are counted a second time, so the next extraction fails the
      repetition test exactly when they do followed by its own, and otherwise the proportion test
      exactly when one of its own windows does. */
  lemma AptFailureKeepsRepetitions(p: PoolState, n: int, m: nat)
    requires p.apt.Valid() && Extract(p, n).1.AptFailure? && 0 < m <= |p.bytes|
    ensures var q, block := Extract(p, n).0, p.bytes[..m];
            && q.bytes == p.bytes && q.apt.AtWindowStart()
            && (Extract(q, m).1.RctFailure? <==> !RctBlock(p.rct, p.bytes[..n] + block).1)
            && (Extract(q, m).1.AptFailure? <==>
                RctBlock(p.rct, p.bytes[..n] + block).1 && !WindowsPass(block, p.apt.cutoff, p.apt.window))
  {
    FeedAppend(RctStep, p.rct, p.bytes[..n], p.bytes[..m]);
    AptBlockKeepsParameters(p.apt, p.bytes[..n]);
    AptCharacterisation(Extract(p, n).0.apt, p.bytes[..m]);
  }

  // ---- Chunking ----

  /** Released n then m bytes are the same bytes, and leave the same pool and test states, as one
      extraction of n + m. */
  lemma SplitExtractionsMerge(p: PoolState, n: int, m: int)
    requires Extract(p, n).1.Released? && Extract(Extract(p, n).0, m).1.Released?
    ensures var (p1, first) := Extract(p, n);
            var (p2, second) := Extract(p1, m);
            Extract(p, n + m) == (p2, Released(first.data + second.data))
  {
    var p1 := Extract(p, n).0;
    assert p1.bytes == p.bytes[n..];
    assert p.bytes[..n + m] == p.bytes[..n] + p1.bytes[..m];
    assert p1.bytes[m..] == p.bytes[n + m..];
    FeedAppend(RctStep, p.rct, p.bytes[..n], p1.bytes[..m]);
    FeedAppend(AptStep, p.apt, p.bytes[..n], p1.bytes[..m]);
  }

  /** Conversely, a released n + m can be had as n then m exactly when the reserve is still met after
      the first n. */
  lemma MergedExtractionSplits(p: PoolState, n: int, m: int)
    requires n > 0 && m > 0 && Extract(p, n + m).1.Released?
    ensures Extract(p, n).1.Released?
    ensures Extract(Extract(p, n).0, m).1.Released? <==> |p.bytes| - n >= p.minSize
    ensures |p.bytes| - n >= p.minSize ==> Extract(Extract(p, n).0, m).0 == Extract(p, n + m).0
  {
    var a, b := p.bytes[..n], p.bytes[n..n + m];
    assert p.bytes[..n + m] == a + b;
    FeedAppend(RctStep, p.rct, a, b);
    FeedAppend(AptStep, p.apt, a, b);
    var p1 := Extract(p, n).0;
    assert p1.bytes == p.bytes[n..] && p1.bytes[..m] == b;
    if |p.bytes| - n >= p.minSize {
      SplitExtractionsMerge(p, n, m);
    }
  }

  // ---- The reserve ----

  /** An extraction leaves the configured reserve exactly when it asked for no more than
      AvailableEntropy reported; the reserve itself is only checked on entry. */
  lemma ReserveKeptExactlyWithinAvailable(p: PoolState, n: int)
    requires Extract(p, n).1.Released?
    ensures |Extract(p, n).0.bytes| >= p.minSize <==> n <= Available(p)
  {
  }

  /** So the reserve can be drained: after one batch into a default pool a request for all 32 bytes
      is served, whatever the bytes are. */
  lemma ReserveCanBeDrained(events: seq<TDCEvent>, sha256: Hash)
    requires events != []
    ensures var p := AfterAdd(Fresh(0, 0), events, sha256);
            && |p.bytes| == p.minSize == 32
            && Extract(p, 32).1 == Released(p.bytes)
            && Extract(p, 32).0.bytes == []
  {
    hide Conditioning;
    var p := AfterAdd(Fresh(0, 0), events, sha256);
    assert p.bytes == Conditioning(events, sha256);
    assert p.bytes[..32] == p.bytes;
    RctCharacterisation(RCT_CUTOFF, p.bytes);
    AptPartialWindow(p.apt, p.bytes);
  }

  /** A pool whose first m bytes hold a run of 40 refuses every request for m bytes or more, from
      every state of the tests, and keeps refusing: the bytes stay where they are. */
  lemma StuckHeadIsNeverReleased(p: PoolState, m: nat, n: int)
    requires p.rct.cutoff == RCT_CUTOFF && p.rct.count >= 0
    requires m <= |p.bytes| && HasRun(p.bytes[..m], RCT_CUTOFF) && n >= m
    ensures !Extract(p, n).1.Released? && Extract(p, n).0.bytes == p.bytes
  {
    if 0 < n <= |p.bytes| {
      var i: nat :| RunAt(p.bytes[..m], i, RCT_CUTOFF);
      assert RunAt(p.bytes[..n], i, RCT_CUTOFF) by {
        assert forall j :: 0 <= j < m ==> p.bytes[..n][j] == p.bytes[..m][j];
      }
      RctLongRunAlwaysFails(p.rct, p.bytes[..n]);
    }
  }
}
