/** The whole path from Add to the pool and the cloud: the collector's step machine with the
    forwarder as its sender, HTTP extractions and a client that comes and goes. */
module Gateway {
  import opened Samples
  import opened Events
  import opened HealthTests
  import opened Whitening
  import opened Pool
  import opened CollectorMachine
  import opened Forwarder
  import PoolHistory

  datatype Gateway = Gateway(
    col: State,
    pool: PoolState,
    fed: bool,                     // the batch in flight has reached the pool
    poolBatches: seq<seq<TDCEvent>>,  // every batch handed to the pool, in order
    attached: bool,
    cloud: seq<CloudBatch>)

  datatype GStep =
    | Collect(step: Step)  // any step of the collector but the sender's return
    | Feed                 // SendBatch adds the batch to the pool
    | Finish(accepted: bool)  // SendBatch mirrors it to the client, if any, and returns
    | Attach
    | Detach
    | Extraction(n: int)

  function GInit(maxSize: nat, minPool: int, maxPool: int): Gateway {
    Gateway(Init(maxSize), Fresh(minPool, maxPool), false, [], false, [])
  }

  predicate GEnabled(g: Gateway, step: GStep) {
    match step
    case Collect(s) => !s.SenderReturns? && Enabled(g.col, s)
    case Feed => !g.col.panicked && g.col.core.inFlight.Some? && !g.fed
    case Finish(_) => !g.col.panicked && g.col.core.inFlight.Some? && g.fed
    case Attach => true
    case Detach => true
    case Extraction(_) => true
  }

  function GApply(g: Gateway, step: GStep, sha256: Hash): Gateway
    requires GEnabled(g, step) && g.pool.maxSize >= 0
  {
    match step
    case Collect(s) => g.(col := Apply(g.col, s))
    case Feed =>
      var batch := g.col.core.inFlight.value.batch;
      g.(pool := AfterAdd(g.pool, batch, sha256), fed := true, poolBatches := g.poolBatches + [batch])
    case Finish(accepted) =>
      var r := g.col.core.inFlight.value;
      var ok := !g.attached || accepted;
      g.(col := Apply(g.col, SenderReturns(ok)), fed := false,
         cloud := g.cloud + if g.attached && accepted then [Mirrored(r, sha256)] else [])
    case Attach => g.(attached := true)
    case Detach => g.(attached := false)
    case Extraction(n) => g.(pool := Extract(g.pool, n).0)
  }

  function Mirrored(r: Request, sha256: Hash): CloudBatch {
    CloudBatch(ToProtos(r.batch, sha256), r.number)
  }

  predicate GDisciplined(g: Gateway, step: GStep) {
    step.Collect? ==> Disciplined(g.col, step.step)
  }

  /** The steps can be taken one after another, and callers keep the shutdown discipline. */
  ghost predicate GRuns(g: Gateway, steps: seq<GStep>, sha256: Hash)
    decreases |steps|
  {
    steps == [] ||
    (GEnabled(g, steps[0]) && GDisciplined(g, steps[0]) && g.pool.maxSize >= 0
     && GRuns(GApply(g, steps[0], sha256), steps[1..], sha256))
  }

  ghost function GAfter(g: Gateway, steps: seq<GStep>, sha256: Hash): Gateway
    requires GRuns(g, steps, sha256)
    decreases |steps|
  {
    if steps == [] then g else GAfter(GApply(g, steps[0], sha256), steps[1..], sha256)
  }

  // ---- Vocabulary of the theorem ----

  function BatchesOf(requests: seq<Request>): (b: seq<seq<TDCEvent>>)
    ensures |b| == |requests|
  {
    seq(|requests|, i requires 0 <= i < |requests| => requests[i].batch)
  }

  function MirrorAll(requests: seq<Request>, sha256: Hash): (c: seq<CloudBatch>)
    ensures |c| == |requests|
  {
    seq(|requests|, i requires 0 <= i < |requests| => Mirrored(requests[i], sha256))
  }

  /** xs can be had from ys by leaving elements out. */
  predicate Subsequence<T(==)>(xs: seq<T>, ys: seq<T>)
    decreases |ys|
  {
    if ys == [] then xs == []
    else
      Subsequence(xs, ys[..|ys| - 1]) ||
      (xs != [] && xs[|xs| - 1] == ys[|ys| - 1] && Subsequence(xs[..|xs| - 1], ys[..|ys| - 1]))
  }

  lemma SubsequenceSnoc<T>(xs: seq<T>, ys: seq<T>, y: T)
    requires Subsequence(xs, ys)
    ensures Subsequence(xs, ys + [y]) && Subsequence(xs + [y], ys + [y])
  {
    assert (ys + [y])[..|ys|] == ys && (xs + [y])[..|xs|] == xs;
  }

  function Flattened(batches: seq<seq<TDCEvent>>): seq<TDCEvent> {
    if batches == [] then [] else Flattened(batches[..|batches| - 1]) + batches[|batches| - 1]
  }

  lemma FlattenedSnoc(batches: seq<seq<TDCEvent>>, b: seq<TDCEvent>)
    ensures Flattened(batches + [b]) == Flattened(batches) + b
  {
    assert (batches + [b])[..|batches|] == batches;
  }

  lemma {:induction false} FlattenedIsConcat(requests: seq<Request>)
    ensures Flattened(BatchesOf(requests)) == Concat(requests)
    decreases |requests|
  {
    if requests != [] {
      var d, r := requests[..|requests| - 1], requests[|requests| - 1];
      FlattenedIsConcat(d);
      assert BatchesOf(requests) == BatchesOf(d) + [r.batch];
      FlattenedSnoc(BatchesOf(d), r.batch);
    }
  }

  // ---- The invariant ----

  /** The batches the sender has finished with or fed. */
  function Handled(g: Gateway): seq<Request> {
    Requests(g.col.core.sent) + if g.fed then Listed(g.col.core.inFlight) else []
  }

  ghost predicate GInv(g: Gateway, sha256: Hash) {
    && ShutdownInv(g.col)
    && g.pool.maxSize >= 0
    && (g.fed ==> g.col.core.inFlight.Some?)
    && g.poolBatches == BatchesOf(Handled(g))
    && g.pool.raw == Suffix(Flattened(g.poolBatches), DEFAULT_MAX_RAW_EVENTS)
    && Subsequence(g.cloud, MirrorAll(Requests(g.col.core.sent), sha256))
  }

  lemma {:induction false} CollectKeeps(g: Gateway, step: Step, sha256: Hash)
    requires GInv(g, sha256) && GEnabled(g, Collect(step)) && Disciplined(g.col, step)
    ensures GInv(GApply(g, Collect(step), sha256), sha256)
  {
    StepKeepsShutdownInv(g.col, step);
    hide ShutdownInv, Subsequence, Flattened;
    var g' := GApply(g, Collect(step), sha256);
    SentOnlyGrowsOnReturn(g.col, step);
    assert Handled(g') == Handled(g);
  }

  lemma SentOnlyGrowsOnReturn(s: State, step: Step)
    requires Enabled(s, step) && !step.SenderReturns?
    ensures Apply(s, step).core.sent == s.core.sent
    ensures s.core.inFlight.Some? ==> Apply(s, step).core.inFlight == s.core.inFlight
  {
  }

  lemma FeedKeeps(g: Gateway, sha256: Hash)
    requires GInv(g, sha256) && GEnabled(g, Feed)
    ensures GInv(GApply(g, Feed, sha256), sha256)
  {
    hide ShutdownInv, Subsequence, Conditioning;
    var g', r := GApply(g, Feed, sha256), g.col.core.inFlight.value;
    assert Handled(g') == Handled(g) + [r];
    assert BatchesOf(Handled(g) + [r]) == BatchesOf(Handled(g)) + [r.batch];
    FlattenedSnoc(g.poolBatches, r.batch);
    SuffixOfAppend(Flattened(g.poolBatches), r.batch, DEFAULT_MAX_RAW_EVENTS);
    if r.batch == [] {
      assert Flattened(g.poolBatches) + r.batch == Flattened(g.poolBatches);
    }
  }

  /** A finished send moves its batch from those in flight to those sent, and changes nothing else about
      what was handled. */
  lemma FinishMoves(g: Gateway, accepted: bool, sha256: Hash)
    requires GEnabled(g, Finish(accepted)) && g.pool.maxSize >= 0
    ensures var g' := GApply(g, Finish(accepted), sha256);
            && Requests(g'.col.core.sent) == Requests(g.col.core.sent) + [g.col.core.inFlight.value]
            && Handled(g') == Handled(g)
  {
    hide Mirrored;
    RequestsSnoc(g.col.core.sent, Sent(g.col.core.inFlight.value, !g.attached || accepted));
  }

  lemma MirrorSnoc(cloud: seq<CloudBatch>, requests: seq<Request>, r: Request, sha256: Hash)
    requires Subsequence(cloud, MirrorAll(requests, sha256))
    ensures Subsequence(cloud, MirrorAll(requests + [r], sha256))
    ensures Subsequence(cloud + [Mirrored(r, sha256)], MirrorAll(requests + [r], sha256))
  {
    hide Subsequence, Mirrored;
    assert MirrorAll(requests + [r], sha256) == MirrorAll(requests, sha256) + [Mirrored(r, sha256)];
    SubsequenceSnoc(cloud, MirrorAll(requests, sha256), Mirrored(r, sha256));
  }

  lemma {:induction false} FinishKeeps(g: Gateway, accepted: bool, sha256: Hash)
    requires GInv(g, sha256) && GEnabled(g, Finish(accepted))
    ensures GInv(GApply(g, Finish(accepted), sha256), sha256)
  {
    StepKeepsShutdownInv(g.col, SenderReturns(!g.attached || accepted));
    hide ShutdownInv, Subsequence, Flattened, Suffix, Mirrored, MirrorAll, Handled, Requests;
    FinishMoves(g, accepted, sha256);
    MirrorSnoc(g.cloud, Requests(g.col.core.sent), g.col.core.inFlight.value, sha256);
    assert g.cloud + [] == g.cloud;
  }

  lemma GStepKeepsInv(g: Gateway, step: GStep, sha256: Hash)
    requires GInv(g, sha256) && GEnabled(g, step) && GDisciplined(g, step)
    ensures GInv(GApply(g, step, sha256), sha256)
  {
    hide ShutdownInv, Subsequence, Flattened, RctBlock, AptBlock;
    match step
    case Collect(s) => CollectKeeps(g, s, sha256);
    case Feed => FeedKeeps(g, sha256);
    case Finish(accepted) => FinishKeeps(g, accepted, sha256);
    case _ =>
  }

  lemma {:induction false} GRunKeepsInv(g: Gateway, steps: seq<GStep>, sha256: Hash)
    requires GInv(g, sha256) && GRuns(g, steps, sha256)
    ensures GInv(GAfter(g, steps, sha256), sha256)
    decreases |steps|
  {
    hide GEnabled, GApply, GDisciplined, ShutdownInv, Subsequence, Flattened;
    if steps != [] {
      GStepKeepsInv(g, steps[0], sha256);
      GRunKeepsInv(GApply(g, steps[0], sha256), steps[1..], sha256);
    }
  }

  lemma GInitInv(maxSize: nat, minPool: int, maxPool: int, sha256: Hash)
    ensures GInv(GInit(maxSize, minPool, maxPool), sha256)
  {
    InitShutdownInv(maxSize);
  }

  lemma AtRestEverythingReachedThePool(r: Gateway, sha256: Hash)
    requires GInv(r, sha256) && r.col.cancelled && !Pending(r.col)
    ensures Drained(r.col) && r.poolBatches == BatchesOf(Requests(r.col.core.sent))
    ensures r.pool.raw == Suffix(r.col.core.added, DEFAULT_MAX_RAW_EVENTS)
  {
    DrainedAtRest(r.col);
    assert Handled(r) == Requests(r.col.core.sent);
    FlattenedIsConcat(Handled(r));
  }

  /** End to end, in every disciplined run: the pool was handed each finished batch exactly once and in
      order, whatever the cloud client did; its raw history is the last 4096 events of those
      batches; what the cloud accepted is an in-order subsequence of them. Once shut down and at
      rest, that history is the last 4096 of all events ever added, however they were batched. */
  lemma EndToEnd(maxSize: nat, minPool: int, maxPool: int, steps: seq<GStep>, sha256: Hash)
    requires GRuns(GInit(maxSize, minPool, maxPool), steps, sha256)
    ensures var g := GAfter(GInit(maxSize, minPool, maxPool), steps, sha256);
            && g.poolBatches == BatchesOf(Handled(g))
            && g.pool.raw == Suffix(Concat(Handled(g)), DEFAULT_MAX_RAW_EVENTS)
            && Subsequence(g.cloud, MirrorAll(Requests(g.col.core.sent), sha256))
    ensures var g := GAfter(GInit(maxSize, minPool, maxPool), steps, sha256);
            g.col.cancelled && !Pending(g.col) ==>
              g.pool.raw == Suffix(g.col.core.added, DEFAULT_MAX_RAW_EVENTS)
  {
    GInitInv(maxSize, minPool, maxPool, sha256);
    GRunKeepsInv(GInit(maxSize, minPool, maxPool), steps, sha256);
    var g := GAfter(GInit(maxSize, minPool, maxPool), steps, sha256);
    FlattenedIsConcat(Handled(g));
    if g.col.cancelled && !Pending(g.col) {
      AtRestEverythingReachedThePool(g, sha256);
    }
  }

  // ---- What the cloud holds ----

  /** What became of a send: was a client attached, and did it accept. */
  datatype Fate = Fate(attached: bool, accepted: bool) {
    predicate Reached() { attached && accepted }
  }

  /** The fates of the sends of a run, read off its steps alone. */
  function Fates(steps: seq<GStep>, attached: bool): seq<Fate>
    decreases |steps|
  {
    if steps == [] then []
    else
      match steps[0]
      case Attach => Fates(steps[1..], true)
      case Detach => Fates(steps[1..], false)
      case Finish(accepted) => [Fate(attached, accepted)] + Fates(steps[1..], attached)
      case _ => Fates(steps[1..], attached)
  }

  /** The batches sent that reached the cloud. */
  function ReachedCloud(sent: seq<Sent>, fates: seq<Fate>, sha256: Hash): seq<CloudBatch>
    requires |sent| == |fates|
    decreases |sent|
  {
    if sent == [] then []
    else
      (if fates[0].Reached() then [Mirrored(sent[0].request, sha256)] else []) +
      ReachedCloud(sent[1..], fates[1..], sha256)
  }

  /** Sends that follow one another were fated as given: the cloud grew by exactly those that reached it,
      and an error was returned for exactly those that an attached client did not accept. */
  ghost predicate Fated(before: Gateway, after: Gateway, fates: seq<Fate>, sha256: Hash) {
    && before.col.core.sent <= after.col.core.sent
    && var sent := after.col.core.sent[|before.col.core.sent|..];
       && |sent| == |fates|
       && after.cloud == before.cloud + ReachedCloud(sent, fates, sha256)
       && forall k :: 0 <= k < |sent| ==> (sent[k].ok <==> !fates[k].attached || fates[k].accepted)
  }

  lemma QuietStepSendsNothing(g: Gateway, step: GStep, sha256: Hash)
    requires GEnabled(g, step) && g.pool.maxSize >= 0 && !step.Finish?
    ensures GApply(g, step, sha256).col.core.sent == g.col.core.sent && GApply(g, step, sha256).cloud == g.cloud
    ensures GApply(g, step, sha256).attached == (step.Attach? || (g.attached && !step.Detach?))
  {
    hide AfterAdd, PoolHistory.Step;
    if step.Collect? {
      SentOnlyGrowsOnReturn(g.col, step.step);
    }
  }

  lemma FinishSendsOne(g: Gateway, accepted: bool, sha256: Hash) returns (r: Request)
    requires GEnabled(g, Finish(accepted)) && g.pool.maxSize >= 0
    ensures g.col.core.inFlight == Some(r)
    ensures var h := GApply(g, Finish(accepted), sha256);
            && h.col.core.sent == g.col.core.sent + [Sent(r, !g.attached || accepted)] && h.attached == g.attached
            && h.cloud == g.cloud + if g.attached && accepted then [Mirrored(r, sha256)] else []
  {
    r := g.col.core.inFlight.value;
  }

  lemma FatedCons(g: Gateway, h: Gateway, after: Gateway, r: Request, fate: Fate, fates: seq<Fate>, sha256: Hash)
    requires h.col.core.sent == g.col.core.sent + [Sent(r, !fate.attached || fate.accepted)]
    requires h.cloud == g.cloud + if fate.Reached() then [Mirrored(r, sha256)] else []
    requires Fated(h, after, fates, sha256)
    ensures Fated(g, after, [fate] + fates, sha256)
  {
    hide Mirrored;
    var later := after.col.core.sent[|h.col.core.sent|..];
    var sent := after.col.core.sent[|g.col.core.sent|..];
    assert sent == [Sent(r, !fate.attached || fate.accepted)] + later;
    assert sent[1..] == later && ([fate] + fates)[1..] == fates;
    forall k | 0 <= k < |sent|
      ensures sent[k].ok <==> !([fate] + fates)[k].attached || ([fate] + fates)[k].accepted
    {
      if k > 0 {
        assert sent[k] == later[k - 1] && ([fate] + fates)[k] == fates[k - 1];
      }
    }
  }

  lemma {:induction false} RunIsFated(g: Gateway, steps: seq<GStep>, sha256: Hash)
    requires GRuns(g, steps, sha256)
    ensures Fated(g, GAfter(g, steps, sha256), Fates(steps, g.attached), sha256)
    decreases |steps|
  {
    hide GEnabled, GApply, GDisciplined, Mirrored;
    if steps == [] {
      assert g.cloud + [] == g.cloud;
    } else {
      var h := GApply(g, steps[0], sha256);
      RunIsFated(h, steps[1..], sha256);
      hide Fated;
      if steps[0].Finish? {
        var r := FinishSendsOne(g, steps[0].accepted, sha256);
        FatedCons(g, h, GAfter(h, steps[1..], sha256), r,
                  Fate(g.attached, steps[0].accepted), Fates(steps[1..], g.attached), sha256);
      } else {
        QuietStepSendsNothing(g, steps[0], sha256);
        SameFate(g, h, GAfter(h, steps[1..], sha256), Fates(steps[1..], h.attached), sha256);
      }
    }
  }

  lemma SameFate(g: Gateway, h: Gateway, after: Gateway, fates: seq<Fate>, sha256: Hash)
    requires g.col.core.sent == h.col.core.sent && g.cloud == h.cloud && Fated(h, after, fates, sha256)
    ensures Fated(g, after, fates, sha256)
  {
  }

  /** In every run the cloud holds exactly the batches sent while a client was attached that it accepted,
      in order, each event mirrored; and the sender returned an error exactly where a client was attached
      and did not accept. */
  lemma CloudHoldsExactly(maxSize: nat, minPool: int, maxPool: int, steps: seq<GStep>, sha256: Hash)
    requires GRuns(GInit(maxSize, minPool, maxPool), steps, sha256)
    ensures var g, fates := GAfter(GInit(maxSize, minPool, maxPool), steps, sha256), Fates(steps, false);
            && |g.col.core.sent| == |fates| && g.cloud == ReachedCloud(g.col.core.sent, fates, sha256)
            && forall k :: 0 <= k < |fates| ==> (g.col.core.sent[k].ok <==> !fates[k].attached || fates[k].accepted)
  {
    RunIsFated(GInit(maxSize, minPool, maxPool), steps, sha256);
    var g := GAfter(GInit(maxSize, minPool, maxPool), steps, sha256);
    assert g.col.core.sent[0..] == g.col.core.sent;
    assert [] + g.cloud == g.cloud;
  }

  lemma MirroredFaithfully(r: Request, sha256: Hash)
    ensures AllMirror(Mirrored(r, sha256).events, r.batch, sha256) && Mirrored(r, sha256).number == r.number
  {
    ToProtosMirror(r.batch, sha256);
  }

  // ---- What the pool has been through ----

  /** The pool operations of a run. */
  ghost function PoolOps(g: Gateway, steps: seq<GStep>, sha256: Hash): seq<PoolHistory.Op>
    requires GRuns(g, steps, sha256)
    decreases |steps|
  {
    if steps == [] then []
    else OpsOf(g, steps[0]) + PoolOps(GApply(g, steps[0], sha256), steps[1..], sha256)
  }

  ghost function OpsOf(g: Gateway, step: GStep): seq<PoolHistory.Op>
    requires GEnabled(g, step)
  {
    match step
    case Feed => [PoolHistory.AddOp(g.col.core.inFlight.value.batch)]
    case Extraction(n) => [PoolHistory.ExtractOp(n)]
    case _ => []
  }

  lemma StepFollowsLedger(g: Gateway, l: PoolHistory.Ledger, step: GStep, sha256: Hash)
    requires GEnabled(g, step) && PoolHistory.Bounded(l.pool) && g.pool == l.pool
    ensures GApply(g, step, sha256).pool == PoolHistory.Run(l, OpsOf(g, step), sha256).pool
  {
    hide AfterAdd, Extract, Enabled, Apply;
    var ops := OpsOf(g, step);
    if ops != [] {
      assert ops[..0] == [];
      assert PoolHistory.Run(l, ops[..0], sha256) == l;
    }
  }

  lemma {:induction false} RunFollowsLedger(g: Gateway, l: PoolHistory.Ledger, steps: seq<GStep>, sha256: Hash)
    requires GRuns(g, steps, sha256) && PoolHistory.Bounded(l.pool) && g.pool == l.pool
    ensures GAfter(g, steps, sha256).pool == PoolHistory.Run(l, PoolOps(g, steps, sha256), sha256).pool
    decreases |steps|
  {
    hide GEnabled, GApply, GDisciplined, PoolHistory.Step, PoolHistory.Bounded;
    if steps != [] {
      StepFollowsLedger(g, l, steps[0], sha256);
      var ops := OpsOf(g, steps[0]);
      var m := PoolHistory.Run(l, ops, sha256);
      RunFollowsLedger(GApply(g, steps[0], sha256), m, steps[1..], sha256);
      PoolHistory.RunAppend(l, ops, PoolOps(GApply(g, steps[0], sha256), steps[1..], sha256), sha256);
    }
  }

  /** The pool of every run of the gateway is that of a run of the pool: what is proved of those, the health
      gate and the accounts, holds here. */
  lemma GatewayPoolIsLedger(maxSize: nat, minPool: int, maxPool: int, steps: seq<GStep>, sha256: Hash)
    requires GRuns(GInit(maxSize, minPool, maxPool), steps, sha256)
    ensures GAfter(GInit(maxSize, minPool, maxPool), steps, sha256).pool ==
            PoolHistory.Run(PoolHistory.Empty(minPool, maxPool),
                            PoolOps(GInit(maxSize, minPool, maxPool), steps, sha256), sha256).pool
  {
    RunFollowsLedger(GInit(maxSize, minPool, maxPool), PoolHistory.Empty(minPool, maxPool), steps, sha256);
  }

  // ---- Progress ----

  predicate GInternal(step: GStep) {
    step.Feed? || step.Finish? || (step.Collect? && Internal(step.step))
  }

  predicate GAllInternal(steps: seq<GStep>) {
    forall i :: 0 <= i < |steps| ==> GInternal(steps[i])
  }

  /** Feeding a batch is half of sending it. */
  function GWork(g: Gateway): nat { 2 * Work(g.col) + if g.fed then 0 else 1 }

  lemma GSomeStep(g: Gateway, sha256: Hash) returns (step: GStep)
    requires GInv(g, sha256) && Pending(g.col)
    ensures GInternal(step) && GEnabled(g, step) && GDisciplined(g, step)
    ensures GWork(GApply(g, step, sha256)) < GWork(g)
  {
    hide Work, AfterAdd, Conserved, Subsequence, Flattened;
    if g.col.core.inFlight.Some? {
      if g.fed {
        InternalStepsDecreaseWork(g.col, SenderReturns(true));
        step := Finish(true);
      } else {
        step := Feed;
      }
    } else {
      var s := SomeStepEnabled(g.col);
      InternalStepsDecreaseWork(g.col, s);
      step := Collect(s);
    }
  }

  lemma {:induction false} GCanComeToRest(g: Gateway, sha256: Hash) returns (steps: seq<GStep>)
    requires GInv(g, sha256)
    ensures GAllInternal(steps) && |steps| <= GWork(g) && GRuns(g, steps, sha256)
    ensures !Pending(GAfter(g, steps, sha256).col)
    decreases GWork(g)
  {
    hide GApply, GWork, GEnabled, GDisciplined, ShutdownInv, Subsequence, Flattened;
    if Pending(g.col) {
      var step := GSomeStep(g, sha256);
      GStepKeepsInv(g, step, sha256);
      var rest := GCanComeToRest(GApply(g, step, sha256), sha256);
      steps := [step] + rest;
      assert steps[1..] == rest;
    } else {
      steps := [];
    }
  }

  lemma ClosedStepAddsNothing(g: Gateway, step: GStep, sha256: Hash)
    requires GInv(g, sha256) && GEnabled(g, step) && g.col.cancelled
    ensures var h := GApply(g, step, sha256);
            h.col.cancelled && h.col.core.added == g.col.core.added
  {
    hide AfterAdd, ShutdownInv, Enabled, Subsequence, Flattened, RctBlock, AptBlock;
    match step
    case Collect(s) => CancelledStepAddsNothing(g.col, s);
    case Finish(accepted) => FinishStep(g, accepted);
    case _ =>
  }

  /** A finished send is the collector's SenderReturns. */
  lemma FinishStep(g: Gateway, accepted: bool)
    requires GEnabled(g, Finish(accepted)) && ShutdownInv(g.col) && g.col.cancelled
    ensures var s := SenderReturns(!g.attached || accepted);
            Enabled(g.col, s) && Apply(g.col, s).cancelled && Apply(g.col, s).core.added == g.col.core.added
  {
    hide ShutdownInv;
    CancelledStepAddsNothing(g.col, SenderReturns(!g.attached || accepted));
  }

  lemma {:induction false} ClosedAddsNothing(g: Gateway, steps: seq<GStep>, sha256: Hash)
    requires GInv(g, sha256) && GRuns(g, steps, sha256) && g.col.cancelled
    ensures var h := GAfter(g, steps, sha256);
            h.col.cancelled && h.col.core.added == g.col.core.added
    decreases |steps|
  {
    hide GEnabled, GApply, GDisciplined, ShutdownInv, Subsequence, Flattened;
    if steps != [] {
      ClosedStepAddsNothing(g, steps[0], sha256);
      GStepKeepsInv(g, steps[0], sha256);
      ClosedAddsNothing(GApply(g, steps[0], sha256), steps[1..], sha256);
    }
  }

  /** Close drains the whole path: once a Close has begun in a disciplined run, the steps the gateway
      takes by itself lead to a collector that is drained, a pool that was handed every batch, and a raw
      history of the last 4096 events added. */
  lemma {:induction false} CloseDrainsToPool(maxSize: nat, minPool: int, maxPool: int, steps: seq<GStep>, sha256: Hash)
    returns (more: seq<GStep>)
    requires GRuns(GInit(maxSize, minPool, maxPool), steps, sha256)
    requires GAfter(GInit(maxSize, minPool, maxPool), steps, sha256).col.cancelled
    ensures var g := GAfter(GInit(maxSize, minPool, maxPool), steps, sha256);
            && GAllInternal(more) && |more| <= GWork(g) && GRuns(g, more, sha256)
            && var r := GAfter(g, more, sha256);
               && Drained(r.col) && r.poolBatches == BatchesOf(Requests(r.col.core.sent))
               && r.pool.raw == Suffix(g.col.core.added, DEFAULT_MAX_RAW_EVENTS)
  {
    GInitInv(maxSize, minPool, maxPool, sha256);
    GRunKeepsInv(GInit(maxSize, minPool, maxPool), steps, sha256);
    var g := GAfter(GInit(maxSize, minPool, maxPool), steps, sha256);
    more := GCanComeToRest(g, sha256);
    GRunKeepsInv(g, more, sha256);
    ClosedAddsNothing(g, more, sha256);
    var r := GAfter(g, more, sha256);
    AtRestEverythingReachedThePool(r, sha256);
  }
}
