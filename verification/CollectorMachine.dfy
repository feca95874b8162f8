/** The batch collector as a step machine: producers, the auto-flush goroutine, the send loop, any
    number of Close calls, one mutex, one bounded channel. A flush is split where it can block:
    stage the batch under the lock, then enqueue it when there is room. */
module CollectorMachine {
  import opened Samples
  import opened Events

  const SEQUENCE_RANGE: nat := 0x1_0000_0000

  datatype Request = Request(batch: seq<TDCEvent>, number: nat)

  /** A request the sender has returned from, and whether it returned without error. */
  datatype Sent = Sent(request: Request, ok: bool)

  // ======================= The data the collector moves =======================

  datatype Core = Core(
    maxSize: nat,
    added: seq<TDCEvent>,       // every event ever appended, in lock order
    buffer: seq<TDCEvent>,
    sequence: nat,              // of the last batch, as a 32-bit counter
    staged: Option<Request>,    // made by the lock holder, waiting for room in the queue
    queue: seq<Request>,
    inFlight: Option<Request>,  // taken by the send loop
    sent: seq<Sent>,
    pending: int)               // the pendingSendGroup counter

  /** A counter of 32 bits. */
  function Wrapped(k: nat): (n: nat)
    ensures n < SEQUENCE_RANGE
  {
    k % SEQUENCE_RANGE
  }

  /** Room in the queue: half of maxSize, rounded down, and one at least. */
  function Capacity(maxSize: nat): (c: nat)
    ensures c >= 1
    ensures maxSize <= 1 ==> c == 1
    ensures maxSize >= 2 ==> 2 * c <= maxSize <= 2 * c + 1
  {
    Max(1, maxSize / 2)
  }

  /** Largest batch: maxSize, or one where maxSize is zero. */
  function Limit(maxSize: nat): (l: nat)
    ensures l >= 1 && (maxSize >= 1 ==> l == maxSize) && (maxSize == 0 ==> l == 1)
  {
    Max(1, maxSize)
  }

  lemma LimitOf(maxSize: nat)
    ensures Limit(maxSize) == Max(1, maxSize)
  {
  }

  function EmptyCore(maxSize: nat): Core {
    Core(maxSize, [], [], 0, None, [], None, [], 0)
  }

  /** The part of flush that runs under the lock. */
  function Stage(c: Core): Core {
    if c.buffer == [] then c
    else
      var number := Wrapped(c.sequence + 1);
      c.(buffer := [], sequence := number, staged := Some(Request(c.buffer, number)), pending := c.pending + 1)
  }

  /** The part of Add that runs under the lock. */
  function Append(c: Core, event: TDCEvent): Core {
    var d := c.(added := c.added + [event], buffer := c.buffer + [event]);
    if |d.buffer| >= d.maxSize then Stage(d) else d
  }

  function Enqueue(c: Core): Core
    requires c.staged.Some?
  {
    c.(staged := None, queue := c.queue + [c.staged.value])
  }

  function Take(c: Core): Core
    requires c.queue != []
  {
    c.(queue := c.queue[1..], inFlight := Some(c.queue[0]))
  }

  function Return(c: Core, ok: bool): Core
    requires c.inFlight.Some?
  {
    c.(inFlight := None, sent := c.sent + [Sent(c.inFlight.value, ok)], pending := c.pending - 1)
  }

  // ---- Conservation ----

  function Requests(sent: seq<Sent>): (r: seq<Request>)
    ensures |r| == |sent|
  {
    seq(|sent|, i requires 0 <= i < |sent| => sent[i].request)
  }

  lemma RequestsSnoc(sent: seq<Sent>, s: Sent)
    ensures Requests(sent + [s]) == Requests(sent) + [s.request]
  {
  }

  function Listed(r: Option<Request>): seq<Request> {
    if r.Some? then [r.value] else []
  }

  /** All batches ever made, oldest first. */
  function Batches(c: Core): seq<Request> {
    Requests(c.sent) + Listed(c.inFlight) + c.queue + Listed(c.staged)
  }

  function Concat(requests: seq<Request>): seq<TDCEvent> {
    if requests == [] then [] else Concat(requests[..|requests| - 1]) + requests[|requests| - 1].batch
  }

  lemma {:induction false} ConcatAppend(a: seq<Request>, b: seq<Request>)
    ensures Concat(a + b) == Concat(a) + Concat(b)
    decreases |b|
  {
    if b == [] {
      assert a + b == a;
    } else {
      assert (a + b)[..|a + b| - 1] == a + b[..|b| - 1];
      ConcatAppend(a, b[..|b| - 1]);
    }
  }

  /** Batch k, counted from one, is numbered k modulo 2^32, holds something, and is not too long. */
  ghost predicate WellFormedBatches(requests: seq<Request>, maxSize: nat) {
    forall k :: 0 <= k < |requests| ==>
      && requests[k].number == Wrapped(k + 1)
      && 1 <= |requests[k].batch| <= Limit(maxSize)
  }

  /** Nothing added is lost, duplicated or reordered. */
  ghost predicate Conserved(c: Core) {
    && c.added == Concat(Batches(c)) + c.buffer
    && WellFormedBatches(Batches(c), c.maxSize)
    && c.sequence == Wrapped(|Batches(c)|)
    && |c.buffer| < Limit(c.maxSize)
    && |c.queue| <= Capacity(c.maxSize)
    && c.pending == |Listed(c.inFlight)| + |c.queue| + |Listed(c.staged)|
  }

  lemma StageMakesOne(c: Core)
    requires c.staged.None?
    ensures Batches(Stage(c)) ==
            Batches(c) + if c.buffer == [] then [] else [Request(c.buffer, Wrapped(c.sequence + 1))]
    ensures Stage(c).maxSize == c.maxSize
  {
  }

  lemma ConcatSnoc(requests: seq<Request>, r: Request)
    ensures Concat(requests + [r]) == Concat(requests) + r.batch
  {
    assert (requests + [r])[..|requests|] == requests;
  }

  lemma WellFormedSnoc(requests: seq<Request>, r: Request, maxSize: nat)
    requires WellFormedBatches(requests, maxSize)
    requires r.number == Wrapped(|requests| + 1) && 1 <= |r.batch| <= Limit(maxSize)
    ensures WellFormedBatches(requests + [r], maxSize)
  {
    hide Wrapped, Limit;
  }

  lemma StageFields(c: Core)
    requires c.staged.None?
    ensures var d := Stage(c);
            && d.maxSize == c.maxSize && d.added == c.added && d.queue == c.queue && d.inFlight == c.inFlight
            && d.buffer == []
            && (c.buffer == [] ==> d == c)
            && (c.buffer != [] ==>
                && d.sequence == Wrapped(c.sequence + 1) && d.pending == c.pending + 1
                && d.staged == Some(Request(c.buffer, Wrapped(c.sequence + 1))))
  {
    hide Wrapped;
  }

  lemma StageConserves(c: Core)
    requires c.staged.None? && |c.buffer| <= Limit(c.maxSize)
    requires c.added == Concat(Batches(c)) + c.buffer
    requires WellFormedBatches(Batches(c), c.maxSize)
    requires c.sequence == Wrapped(|Batches(c)|)
    requires |c.queue| <= Capacity(c.maxSize)
    requires c.pending == |Listed(c.inFlight)| + |c.queue| + |Listed(c.staged)|
    ensures Conserved(Stage(c))
  {
    StageMakesOne(c);
    StageFields(c);
    LimitOf(c.maxSize);
    hide Stage, Batches, Concat, WellFormedBatches, Wrapped, Capacity, Limit;
    if c.buffer != [] {
      var r := Stage(c).staged.value;
      ConcatSnoc(Batches(c), r);
      NextNumber(|Batches(c)|);
      WellFormedSnoc(Batches(c), r, c.maxSize);
      assert c.added + [] == c.added;
    }
  }

  lemma NextNumber(k: nat)
    ensures Wrapped(Wrapped(k) + 1) == Wrapped(k + 1)
  {
  }

  lemma AppendConserves(c: Core, event: TDCEvent)
    requires Conserved(c) && c.staged.None?
    ensures Conserved(Append(c, event))
  {
    var d := c.(added := c.added + [event], buffer := c.buffer + [event]);
    assert Batches(d) == Batches(c);
    assert d.added == Concat(Batches(d)) + d.buffer;
    if |d.buffer| >= d.maxSize {
      StageConserves(d);
    }
  }

  lemma EnqueueConserves(c: Core)
    requires Conserved(c) && c.staged.Some? && |c.queue| < Capacity(c.maxSize)
    ensures Conserved(Enqueue(c)) && Batches(Enqueue(c)) == Batches(c)
  {
    assert Batches(Enqueue(c)) == Batches(c);
  }

  lemma TakeConserves(c: Core)
    requires Conserved(c) && c.inFlight.None? && c.queue != []
    ensures Conserved(Take(c)) && Batches(Take(c)) == Batches(c)
  {
    assert Batches(Take(c)) == Batches(c);
  }

  lemma ReturnConserves(c: Core, ok: bool)
    requires Conserved(c) && c.inFlight.Some?
    ensures Conserved(Return(c, ok)) && Batches(Return(c, ok)) == Batches(c)
  {
    assert Requests(Return(c, ok).sent) == Requests(c.sent) + [c.inFlight.value];
    assert Batches(Return(c, ok)) == Batches(c);
  }

  // ======================= The goroutines =======================

  /** Who holds the mutex. */
  datatype Holder = Free | Adding | Flushing | Closing

  /** Where the auto-flush goroutine is: in its select, past the timer and after the lock, holding
      the lock, gone. */
  datatype AutoFlush = Waiting | Fired | Busy | Exited

  datatype State = State(
    core: Core,
    holder: Holder,
    calls: multiset<TDCEvent>,  // Add calls begun but not yet past the lock
    auto: AutoFlush,
    cancelled: bool,            // some Close call has begun
    closersWaiting: nat,        // Close calls after the lock
    closersFlushed: nat,        // Close calls past their flush, before closing the queue
    closed: bool,
    senderExited: bool,
    panicked: bool)             // a send on the closed queue

  function Init(maxSize: nat): State {
    State(EmptyCore(maxSize), Free, multiset{}, Waiting, false, 0, 0, false, false, false)
  }

  datatype Step =
    | AddBegin(event: TDCEvent)
    | AddLock(event: TDCEvent)
    | Tick
    | AutoLock
    | AutoExit
    | CloseBegin
    | CloseLock
    | CloseQueue
    | EnqueueStaged
    | Unlock
    | TakeNext
    | SenderReturns(ok: bool)
    | SenderExit

  predicate Enabled(s: State, step: Step) {
    && !s.panicked
    && match step
       case AddBegin(_) => true
       case AddLock(e) => s.holder.Free? && e in s.calls
       case Tick => s.auto.Waiting?
       case AutoLock => s.holder.Free? && s.auto.Fired?
       case AutoExit => s.auto.Waiting? && s.cancelled
       case CloseBegin => true
       case CloseLock => s.holder.Free? && s.closersWaiting > 0
       case CloseQueue => s.closersFlushed > 0
       case EnqueueStaged => s.core.staged.Some? && (s.closed || |s.core.queue| < Capacity(s.core.maxSize))
       case Unlock => !s.holder.Free? && s.core.staged.None?
       case TakeNext => s.core.inFlight.None? && s.core.queue != []
       case SenderReturns(_) => s.core.inFlight.Some?
       case SenderExit => !s.senderExited && s.closed && s.core.queue == [] && s.core.inFlight.None?
  }

  function Apply(s: State, step: Step): State
    requires Enabled(s, step)
  {
    match step
    case AddBegin(e) => s.(calls := s.calls + multiset{e})
    case AddLock(e) => s.(calls := s.calls - multiset{e}, holder := Adding, core := Append(s.core, e))
    case Tick => s.(auto := Fired)
    case AutoLock => s.(holder := Flushing, auto := Busy, core := Stage(s.core))
    case AutoExit => s.(auto := Exited)
    case CloseBegin => s.(cancelled := true, closersWaiting := s.closersWaiting + 1)
    case CloseLock => s.(holder := Closing, closersWaiting := s.closersWaiting - 1, core := Stage(s.core))
    case CloseQueue => s.(closersFlushed := s.closersFlushed - 1, closed := true)
    case EnqueueStaged => if s.closed then s.(panicked := true) else s.(core := Enqueue(s.core))
    case Unlock =>
      s.(holder := Free,
         auto := if s.holder.Flushing? then Waiting else s.auto,
         closersFlushed := s.closersFlushed + if s.holder.Closing? then 1 else 0)
    case TakeNext => s.(core := Take(s.core))
    case SenderReturns(ok) => s.(core := Return(s.core, ok))
    case SenderExit => s.(senderExited := true)
  }

  /** The steps can be taken one after another. */
  predicate Runs(s: State, steps: seq<Step>)
    decreases |steps|
  {
    steps == [] || (Enabled(s, steps[0]) && Runs(Apply(s, steps[0]), steps[1..]))
  }

  function After(s: State, steps: seq<Step>): State
    requires Runs(s, steps)
    decreases |steps|
  {
    if steps == [] then s else After(Apply(s, steps[0]), steps[1..])
  }

  // ---- Conservation in every run ----

  /** Only the lock holder stages, and the timer holds the lock exactly while its goroutine is busy. */
  predicate HolderInv(s: State) {
    (s.core.staged.Some? ==> !s.holder.Free?) && (s.holder.Flushing? <==> s.auto.Busy?)
  }

  ghost predicate Inv(s: State) {
    && Conserved(s.core)
    && HolderInv(s)
    && (s.senderExited ==> s.closed && s.core.queue == [] && s.core.inFlight.None?)
  }

  lemma StepKeepsInv(s: State, step: Step)
    requires Inv(s) && Enabled(s, step)
    ensures Inv(Apply(s, step))
  {
    hide Conserved, Wrapped, Limit;
    match step
    case AddLock(e) => AppendConserves(s.core, e); ConservedFacts(s.core);
    case AutoLock => ConservedFacts(s.core); StageConserves(s.core);
    case CloseLock => ConservedFacts(s.core); StageConserves(s.core);
    case EnqueueStaged => if !s.closed { EnqueueConserves(s.core); }
    case TakeNext => TakeConserves(s.core);
    case SenderReturns(ok) => ReturnConserves(s.core, ok);
    case _ =>
  }

  lemma ConservedFacts(c: Core)
    requires Conserved(c)
    ensures c.added == Concat(Batches(c)) + c.buffer
    ensures WellFormedBatches(Batches(c), c.maxSize)
    ensures c.sequence == Wrapped(|Batches(c)|)
    ensures |c.buffer| < Limit(c.maxSize) && |c.queue| <= Capacity(c.maxSize)
    ensures c.pending == |Listed(c.inFlight)| + |c.queue| + |Listed(c.staged)|
  {
  }

  lemma {:induction false} RunKeepsInv(s: State, steps: seq<Step>)
    requires Inv(s) && Runs(s, steps)
    ensures Inv(After(s, steps))
    decreases |steps|
  {
    hide Inv, Enabled, Apply;
    if steps != [] {
      StepKeepsInv(s, steps[0]);
      RunKeepsInv(Apply(s, steps[0]), steps[1..]);
    }
  }

  /** Under every interleaving, panicking ones included: the events added are, in order, those sent,
      in flight, queued, staged and buffered; batches are numbered in order modulo 2^32 whatever the
      sender returned, never empty and never longer than maxSize (one where it is zero); the counter
      of pending sends counts exactly the batches under way. */
  lemma CollectorConservation(maxSize: nat, steps: seq<Step>)
    requires Runs(Init(maxSize), steps)
    ensures Conserved(After(Init(maxSize), steps).core)
  {
    assert Conserved(EmptyCore(maxSize)) by {
      assert Batches(EmptyCore(maxSize)) == [];
      assert Concat([]) == [];
    }
    RunKeepsInv(Init(maxSize), steps);
  }

  // ---- When batches are made ----

  /** The lock holder waits with a staged batch exactly while the open queue holds as many as its capacity:
      half of maxSize, or one. */
  lemma HolderBlocksExactlyWhenFull(s: State)
    requires Inv(s) && !s.panicked && s.core.staged.Some?
    ensures !Enabled(s, EnqueueStaged) <==> !s.closed && |s.core.queue| == Max(1, s.core.maxSize / 2)
    ensures !Enabled(s, Unlock)
  {
    ConservedFacts(s.core);
  }

  /** An event that fills the buffer makes a batch of exactly the limit; any other stays buffered. */
  lemma AddFlushesExactlyWhenFull(c: Core, event: TDCEvent)
    requires Conserved(c) && c.staged.None?
    ensures var d, full := Append(c, event), c.buffer + [event];
            && d.added == c.added + [event] && d.queue == c.queue && d.inFlight == c.inFlight && d.sent == c.sent
            && (if |full| < c.maxSize then d.buffer == full && d.staged == None && d.sequence == c.sequence
                else d.buffer == [] && |full| == Limit(c.maxSize)
                     && d.staged == Some(Request(full, (c.sequence + 1) % 0x1_0000_0000)))
  {
    hide Concat;
    ConservedFacts(c);
  }

  /** The timer and Close take the whole buffer, and make a batch exactly when it holds something. */
  lemma FlushTakesEverything(s: State, step: Step)
    requires Inv(s) && Enabled(s, step) && (step.AutoLock? || step.CloseLock?)
    ensures var c, d := s.core, Apply(s, step).core;
            && d.added == c.added && d.buffer == []
            && d.staged == if c.buffer == [] then None
                           else Some(Request(c.buffer, (c.sequence + 1) % 0x1_0000_0000))
  {
    hide Conserved;
  }

  /** At most one batch was made, those made before are as they were, and a new one is of the limit unless
      it may be short. */
  ghost predicate Grew(c: Core, d: Core, mayBeShort: bool) {
    && d.maxSize == c.maxSize
    && Batches(c) <= Batches(d) && |Batches(d)| <= |Batches(c)| + 1
    && (|Batches(d)| > |Batches(c)| && !mayBeShort ==> |Batches(d)[|Batches(c)|].batch| == Limit(c.maxSize))
  }

  lemma SameGrew(c: Core, mayBeShort: bool)
    ensures Grew(c, c, mayBeShort)
  {
  }

  lemma StageGrew(c: Core)
    requires c.staged.None?
    ensures Grew(c, Stage(c), true)
  {
    StageMakesOne(c);
    hide Batches, Stage;
  }

  lemma AppendGrew(c: Core, e: TDCEvent)
    requires c.staged.None? && Conserved(c)
    ensures Grew(c, Append(c, e), false)
  {
    ConservedFacts(c);
    LimitOf(c.maxSize);
    hide Conserved, Stage, Concat, WellFormedBatches;
    var d := c.(added := c.added + [e], buffer := c.buffer + [e]);
    assert Batches(d) == Batches(c);
    if |d.buffer| >= d.maxSize {
      StageMakesOne(d);
      hide Batches;
    }
  }

  /** A batch that moves on is the same batch. */
  lemma MoveGrew(c: Core, ok: bool)
    requires Conserved(c)
    ensures c.staged.Some? && |c.queue| < Capacity(c.maxSize) ==> Grew(c, Enqueue(c), false)
    ensures c.inFlight.None? && c.queue != [] ==> Grew(c, Take(c), false)
    ensures c.inFlight.Some? ==> Grew(c, Return(c, ok), false)
  {
    hide Batches, Conserved;
    if c.staged.Some? && |c.queue| < Capacity(c.maxSize) {
      EnqueueConserves(c);
    }
    if c.inFlight.None? && c.queue != [] {
      TakeConserves(c);
    }
    if c.inFlight.Some? {
      ReturnConserves(c, ok);
    }
  }

  /** A step makes at most one batch, keeps those made before, and one that makes a batch below the limit
      is the timer's or a Close's. */
  lemma ShortBatchMeansFlush(s: State, step: Step)
    requires Inv(s) && Enabled(s, step)
    ensures Grew(s.core, Apply(s, step).core, step.AutoLock? || step.CloseLock?)
  {
    hide Conserved, Grew, Stage, Append, Enqueue, Take, Return;
    match step
    case AddLock(e) => AppendGrew(s.core, e);
    case AutoLock => StageGrew(s.core);
    case CloseLock => StageGrew(s.core);
    case EnqueueStaged => MoveGrew(s.core, true); SameGrew(s.core, false);
    case TakeNext => MoveGrew(s.core, true);
    case SenderReturns(ok) => MoveGrew(s.core, ok);
    case _ => SameGrew(s.core, false);
  }

  predicate NoFlush(steps: seq<Step>) {
    forall i :: 0 <= i < |steps| ==> !steps[i].AutoLock? && !steps[i].CloseLock?
  }

  ghost predicate AllFull(c: Core) {
    forall k :: 0 <= k < |Batches(c)| ==> |Batches(c)[k].batch| == Limit(c.maxSize)
  }

  lemma {:induction false} FullStaysFull(s: State, steps: seq<Step>)
    requires Inv(s) && AllFull(s.core) && Runs(s, steps) && NoFlush(steps)
    ensures AllFull(After(s, steps).core)
    decreases |steps|
  {
    hide Inv, Enabled, Apply, Grew, AllFull;
    if steps != [] {
      assert !steps[0].AutoLock? && !steps[0].CloseLock?;
      StepKeepsInv(s, steps[0]);
      ShortBatchMeansFlush(s, steps[0]);
      NewBatchFull(s.core, Apply(s, steps[0]).core);
      FullStaysFull(Apply(s, steps[0]), steps[1..]);
    }
  }

  lemma NewBatchFull(c: Core, d: Core)
    requires AllFull(c) && Grew(c, d, false)
    ensures AllFull(d)
  {
    hide Batches;
    forall k | 0 <= k < |Batches(d)|
      ensures |Batches(d)[k].batch| == Limit(d.maxSize)
    {
      if k < |Batches(c)| {
        assert Batches(d)[k] == Batches(c)[k];
      }
    }
  }

  /** In every run in which neither the timer nor a Close flushes, all batches have exactly maxSize events
      (one where it is zero): Add alone never sends early. */
  lemma AddAloneMakesFullBatches(maxSize: nat, steps: seq<Step>)
    requires Runs(Init(maxSize), steps) && NoFlush(steps)
    ensures forall k :: 0 <= k < |Batches(After(Init(maxSize), steps).core)| ==>
              |Batches(After(Init(maxSize), steps).core)[k].batch| == Max(1, maxSize)
  {
    InitShutdownInv(maxSize);
    assert Batches(EmptyCore(maxSize)) == [];
    FullStaysFull(Init(maxSize), steps);
    SizeStays(Init(maxSize), steps);
  }

  lemma {:induction false} SizeStays(s: State, steps: seq<Step>)
    requires Runs(s, steps)
    ensures After(s, steps).core.maxSize == s.core.maxSize
    decreases |steps|
  {
    if steps != [] {
      SizeStays(Apply(s, steps[0]), steps[1..]);
    }
  }

  // ---- Shutdown ----

  /** What callers owe: no Add begins once a Close has begun, and the first Close begins only when
      no Add call is still waiting for the lock. */
  predicate Disciplined(s: State, step: Step) {
    && (step.AddBegin? ==> !s.cancelled)
    && (step.CloseBegin? ==> s.cancelled || s.calls == multiset{})
  }

  predicate DisciplinedRun(s: State, steps: seq<Step>)
    requires Runs(s, steps)
    decreases |steps|
  {
    steps == [] || (Disciplined(s, steps[0]) && DisciplinedRun(Apply(s, steps[0]), steps[1..]))
  }

  /** Some Close has run its flush and given the lock back. */
  predicate Flushed(s: State) { s.closersFlushed > 0 || s.closed }

  ghost predicate ShutdownInv(s: State) {
    Inv(s) && InOrder(s)
  }

  /** Where a shutdown stands. */
  predicate InOrder(s: State) {
    && HolderInv(s)
    && !s.panicked
    && (s.cancelled ==> s.calls == multiset{})
    && (s.closersWaiting > 0 || s.holder.Closing? || Flushed(s) ==> s.cancelled)
    && (s.holder.Closing? || Flushed(s) ==> s.core.buffer == [])
    && (Flushed(s) ==> s.core.staged.None?)
    && (s.cancelled ==> s.closersWaiting > 0 || s.holder.Closing? || Flushed(s))
    && (s.auto.Exited? ==> s.cancelled)
  }

  lemma StageEmpties(c: Core)
    ensures Stage(c).buffer == [] && (c.buffer == [] ==> Stage(c) == c)
  {
  }

  /** A batch that moves on leaves the buffer, and only one that enters the queue is staged no more. */
  lemma MovesKeepBuffer(c: Core, ok: bool)
    ensures c.staged.Some? ==> Enqueue(c).buffer == c.buffer && Enqueue(c).staged.None?
    ensures c.queue != [] ==> Take(c).buffer == c.buffer && Take(c).staged == c.staged
    ensures c.inFlight.Some? ==> Return(c, ok).buffer == c.buffer && Return(c, ok).staged == c.staged
  {
  }

  lemma AddKeepsOrder(s: State, step: Step)
    requires InOrder(s) && Enabled(s, step) && Disciplined(s, step)
    requires step.AddBegin? || step.AddLock?
    ensures InOrder(Apply(s, step))
  {
    hide Stage, Append, Enqueue, Take, Return, Capacity;
  }

  lemma TimerKeepsOrder(s: State, step: Step)
    requires InOrder(s) && Enabled(s, step)
    requires step.Tick? || step.AutoLock? || step.AutoExit?
    ensures InOrder(Apply(s, step))
  {
    StageEmpties(s.core);
    hide Stage, Append, Enqueue, Take, Return, Capacity;
  }

  lemma CloseKeepsOrder(s: State, step: Step)
    requires InOrder(s) && Enabled(s, step) && Disciplined(s, step)
    requires step.CloseBegin? || step.CloseLock? || step.CloseQueue?
    ensures InOrder(Apply(s, step))
  {
    StageEmpties(s.core);
    hide Stage, Append, Enqueue, Take, Return, Capacity;
  }

  lemma SendKeepsOrder(s: State, step: Step)
    requires InOrder(s) && Enabled(s, step)
    requires step.EnqueueStaged? || step.Unlock? || step.TakeNext? || step.SenderReturns? || step.SenderExit?
    ensures InOrder(Apply(s, step))
  {
    MovesKeepBuffer(s.core, step.SenderReturns? && step.ok);
    hide Stage, Append, Enqueue, Take, Return, Capacity;
  }

  lemma StepKeepsShutdownInv(s: State, step: Step)
    requires ShutdownInv(s) && Enabled(s, step) && Disciplined(s, step)
    ensures ShutdownInv(Apply(s, step))
  {
    StepKeepsInv(s, step);
    hide Inv, InOrder, Enabled, Disciplined, Apply;
    match step
    case AddBegin(_) => AddKeepsOrder(s, step);
    case AddLock(_) => AddKeepsOrder(s, step);
    case Tick => TimerKeepsOrder(s, step);
    case AutoLock => TimerKeepsOrder(s, step);
    case AutoExit => TimerKeepsOrder(s, step);
    case CloseBegin => CloseKeepsOrder(s, step);
    case CloseLock => CloseKeepsOrder(s, step);
    case CloseQueue => CloseKeepsOrder(s, step);
    case _ => SendKeepsOrder(s, step);
  }

  lemma {:induction false} RunKeepsShutdownInv(s: State, steps: seq<Step>)
    requires ShutdownInv(s) && Runs(s, steps) && DisciplinedRun(s, steps)
    ensures ShutdownInv(After(s, steps))
    decreases |steps|
  {
    hide ShutdownInv, Enabled, Apply, Disciplined;
    if steps != [] {
      StepKeepsShutdownInv(s, steps[0]);
      RunKeepsShutdownInv(Apply(s, steps[0]), steps[1..]);
    }
  }

  lemma InitShutdownInv(maxSize: nat)
    ensures ShutdownInv(Init(maxSize))
  {
    assert Batches(EmptyCore(maxSize)) == [];
    assert Concat([]) == [];
  }

  /** No disciplined run sends on the closed queue, however late the timer fires and however often
      Close is called. */
  lemma ShutdownIsSafe(maxSize: nat, steps: seq<Step>)
    requires Runs(Init(maxSize), steps) && DisciplinedRun(Init(maxSize), steps)
    ensures !After(Init(maxSize), steps).panicked
  {
    InitShutdownInv(maxSize);
    RunKeepsShutdownInv(Init(maxSize), steps);
  }

  /** When the send loop has ended, everything added has been sent: the "all batches sent" message
      is true whenever it is logged. */
  lemma SenderExitMeansDelivered(maxSize: nat, steps: seq<Step>)
    requires Runs(Init(maxSize), steps) && DisciplinedRun(Init(maxSize), steps)
    ensures var s := After(Init(maxSize), steps);
            s.senderExited ==> s.core.added == Concat(Requests(s.core.sent)) && s.core.pending == 0
  {
    InitShutdownInv(maxSize);
    RunKeepsShutdownInv(Init(maxSize), steps);
    var s := After(Init(maxSize), steps);
    if s.senderExited {
      assert Batches(s.core) == Requests(s.core.sent);
    }
  }

  // ---- Progress ----

  /** Steps the collector takes by itself; the others are calls, or the timer. */
  predicate Internal(step: Step) { !step.AddBegin? && !step.Tick? && !step.CloseBegin? }

  ghost predicate Quiescent(s: State) {
    forall step :: Internal(step) ==> !Enabled(s, step)
  }

  /** Something is under way: a call, a batch, or a goroutine that has been told to end. */
  predicate Pending(s: State) {
    || !s.holder.Free? || s.calls != multiset{} || s.auto.Fired?
    || s.core.staged.Some? || s.core.queue != [] || s.core.inFlight.Some?
    || s.closersWaiting > 0 || s.closersFlushed > 0
    || (s.cancelled && s.auto.Waiting?) || (s.closed && !s.senderExited)
  }

  /** No deadlock: while anything is under way some internal step is enabled, provided the sender
      returns from what it has taken; in particular a holder blocked on a full queue waits for
      nobody but the sender. */
  lemma SomeStepEnabled(s: State) returns (step: Step)
    requires Inv(s) && !s.panicked && Pending(s)
    ensures Internal(step) && Enabled(s, step)
  {
    if s.core.inFlight.Some? {
      step := SenderReturns(true);
    } else if s.core.queue != [] {
      step := TakeNext;
    } else if s.core.staged.Some? {
      step := EnqueueStaged;
    } else if !s.holder.Free? {
      step := Unlock;
    } else if s.calls != multiset{} {
      var e :| e in s.calls;
      step := AddLock(e);
    } else if s.auto.Fired? {
      step := AutoLock;
    } else if s.closersWaiting > 0 {
      step := CloseLock;
    } else if s.closersFlushed > 0 {
      step := CloseQueue;
    } else if s.cancelled && s.auto.Waiting? {
      step := AutoExit;
    } else {
      step := SenderExit;
    }
  }

  function HolderWeight(h: Holder): nat {
    match h
    case Free => 0
    case Adding => 1
    case Flushing => 2
    case Closing => 2
  }

  function AutoWeight(a: AutoFlush): nat {
    match a
    case Waiting => 1
    case Fired => 6
    case Busy => 0
    case Exited => 0
  }

  /** The parts of Work: what the goroutines and calls still have to do, and what the batches do. */
  function CallWork(s: State): nat {
    5 * |s.calls| + HolderWeight(s.holder) + AutoWeight(s.auto) + 6 * s.closersWaiting + s.closersFlushed
    + (if s.senderExited then 0 else 1) + (if s.panicked then 0 else 1)
  }

  function BatchWork(c: Core): nat {
    3 * |Listed(c.staged)| + 2 * |c.queue| + |Listed(c.inFlight)|
  }

  /** Work left: an upper bound on the internal steps still possible without new calls or ticks. */
  function Work(s: State): nat { CallWork(s) + BatchWork(s.core) }

  lemma StageWork(c: Core)
    requires c.staged.None?
    ensures BatchWork(Stage(c)) <= BatchWork(c) + 3
  {
  }

  lemma AppendWork(c: Core, e: TDCEvent)
    requires c.staged.None?
    ensures BatchWork(Append(c, e)) <= BatchWork(c) + 3
  {
    hide BatchWork;
    var d := c.(added := c.added + [e], buffer := c.buffer + [e]);
    assert BatchWork(d) == BatchWork(c) by { SameBatchWork(c, d); }
    if |d.buffer| >= d.maxSize {
      StageWork(d);
    }
  }

  lemma SameBatchWork(c: Core, d: Core)
    requires c.staged == d.staged && c.queue == d.queue && c.inFlight == d.inFlight
    ensures BatchWork(c) == BatchWork(d)
  {
  }

  /** Moving a batch on takes one off its work. */
  lemma MoveWork(c: Core, ok: bool)
    ensures c.staged.Some? ==> BatchWork(Enqueue(c)) < BatchWork(c)
    ensures c.inFlight.None? && c.queue != [] ==> BatchWork(Take(c)) < BatchWork(c)
    ensures c.inFlight.Some? ==> BatchWork(Return(c, ok)) < BatchWork(c)
  {
  }

  lemma InternalStepsDecreaseWork(s: State, step: Step)
    requires Inv(s) && Enabled(s, step) && Internal(step)
    ensures Work(Apply(s, step)) < Work(s)
  {
    hide Conserved, BatchWork, Stage, Append, Enqueue, Take, Return;
    match step
    case AddLock(e) => AppendWork(s.core, e);
    case AutoLock => StageWork(s.core);
    case CloseLock => StageWork(s.core);
    case EnqueueStaged => MoveWork(s.core, true);
    case TakeNext => MoveWork(s.core, true);
    case SenderReturns(ok) => MoveWork(s.core, ok);
    case _ =>
  }

  predicate AllInternal(steps: seq<Step>) {
    forall i :: 0 <= i < |steps| ==> Internal(steps[i])
  }

  /** Left alone, the collector comes to rest within Work(s) steps. */
  lemma {:induction false} InternalRunsAreShort(s: State, steps: seq<Step>)
    requires Inv(s) && Runs(s, steps) && AllInternal(steps)
    ensures |steps| + Work(After(s, steps)) <= Work(s)
    decreases |steps|
  {
    hide Inv, Enabled, Apply, Work;
    if steps != [] {
      assert Internal(steps[0]);
      StepKeepsInv(s, steps[0]);
      InternalStepsDecreaseWork(s, steps[0]);
      InternalRunsAreShort(Apply(s, steps[0]), steps[1..]);
    }
  }

  /** Shut down completely: queue closed, both goroutines ended, and the batches sent concatenate to
      exactly the events added. */
  ghost predicate Drained(s: State) {
    && s.closed && s.senderExited && s.auto.Exited? && s.core.pending == 0 && !s.panicked
    && s.core.added == Concat(Requests(s.core.sent))
    && WellFormedBatches(Requests(s.core.sent), s.core.maxSize)
  }

  lemma DrainedAtRest(s: State)
    requires ShutdownInv(s) && s.cancelled && !Pending(s)
    ensures Drained(s)
  {
    assert Batches(s.core) == Requests(s.core.sent);
  }

  /** A disciplined shutdown that has come to rest is drained. */
  lemma RestAfterCloseIsDrained(maxSize: nat, steps: seq<Step>)
    requires Runs(Init(maxSize), steps) && DisciplinedRun(Init(maxSize), steps)
    requires After(Init(maxSize), steps).cancelled && Quiescent(After(Init(maxSize), steps))
    ensures Drained(After(Init(maxSize), steps))
  {
    InitShutdownInv(maxSize);
    RunKeepsShutdownInv(Init(maxSize), steps);
    var s := After(Init(maxSize), steps);
    if Pending(s) {
      var step := SomeStepEnabled(s);
    }
    DrainedAtRest(s);
  }

  /** And it does come to rest: from every state of a disciplined run some internal steps, all of
      them disciplined, lead to a quiescent state. */
  lemma {:induction false} CanComeToRest(s: State) returns (steps: seq<Step>)
    requires ShutdownInv(s)
    ensures AllInternal(steps) && Runs(s, steps) && DisciplinedRun(s, steps) && !Pending(After(s, steps))
    decreases Work(s)
  {
    hide Work, Apply, Conserved;
    if Pending(s) {
      var step := SomeStepEnabled(s);
      InternalStepsDecreaseWork(s, step);
      StepKeepsShutdownInv(s, step);
      var rest := CanComeToRest(Apply(s, step));
      steps := [step] + rest;
      assert steps[1..] == rest;
    } else {
      steps := [];
    }
  }

  /** Once cancelled, with no call left waiting, nothing is added. */
  lemma CancelledStepAddsNothing(s: State, step: Step)
    requires ShutdownInv(s) && Enabled(s, step) && s.cancelled
    ensures Apply(s, step).cancelled && Apply(s, step).core.added == s.core.added
  {
    hide Conserved;
  }

  lemma {:induction false} StaysCancelled(s: State, steps: seq<Step>)
    requires s.cancelled && Runs(s, steps)
    ensures After(s, steps).cancelled
    decreases |steps|
  {
    if steps != [] {
      StaysCancelled(Apply(s, steps[0]), steps[1..]);
    }
  }

  /** Close drains: once a Close has begun in a disciplined run, the collector's own steps finish the
      shutdown, whatever batches and calls were under way. */
  lemma CloseDrains(maxSize: nat, steps: seq<Step>) returns (more: seq<Step>)
    requires Runs(Init(maxSize), steps) && DisciplinedRun(Init(maxSize), steps)
    requires After(Init(maxSize), steps).cancelled
    ensures var s := After(Init(maxSize), steps);
            AllInternal(more) && Runs(s, more) && |more| <= Work(s) && Drained(After(s, more))
  {
    InitShutdownInv(maxSize);
    RunKeepsShutdownInv(Init(maxSize), steps);
    var s := After(Init(maxSize), steps);
    more := CanComeToRest(s);
    InternalRunsAreShort(s, more);
    RunKeepsShutdownInv(s, more);
    StaysCancelled(s, more);
    DrainedAtRest(After(s, more));
  }

  // ---- Exactly when shutdown is safe ----

  predicate NoAddBegin(steps: seq<Step>) {
    forall i :: 0 <= i < |steps| ==> !steps[i].AddBegin?
  }

  lemma Prepend(s: State, step: Step, rest: seq<Step>) returns (steps: seq<Step>)
    requires Enabled(s, step) && Runs(Apply(s, step), rest)
    ensures steps == [step] + rest && Runs(s, steps) && After(s, steps) == After(Apply(s, step), rest)
  {
    hide Enabled, Apply;
    steps := [step] + rest;
    assert steps[1..] == rest;
  }

  lemma {:induction false} Chain(s: State, a: seq<Step>, b: seq<Step>)
    requires Runs(s, a) && Runs(After(s, a), b)
    ensures Runs(s, a + b) && After(s, a + b) == After(After(s, a), b)
    decreases |a|
  {
    hide Enabled, Apply;
    if a == [] {
      assert a + b == b;
    } else {
      assert (a + b)[1..] == a[1..] + b;
      Chain(Apply(s, a[0]), a[1..], b);
    }
  }

  /** While the queue is open the sender makes room for whoever holds the lock, and it is given back. */
  lemma {:induction false} LockCanBeFreed(s: State) returns (steps: seq<Step>)
    requires Inv(s) && !s.panicked && !s.closed
    ensures Runs(s, steps) && NoAddBegin(steps)
    ensures var t := After(s, steps);
            && Inv(t) && !t.panicked && !t.closed && t.holder.Free?
            && t.calls == s.calls && t.closersWaiting == s.closersWaiting
            && t.closersFlushed == s.closersFlushed + if s.holder.Closing? then 1 else 0
    decreases Work(s)
  {
    hide Conserved, Work;
    if s.holder.Free? {
      steps := [];
    } else {
      ConservedFacts(s.core);
      var step :=
        if s.core.staged.None? then Unlock
        else if |s.core.queue| < Capacity(s.core.maxSize) then EnqueueStaged
        else if s.core.inFlight.None? then TakeNext
        else SenderReturns(true);
      InternalStepsDecreaseWork(s, step);
      StepKeepsInv(s, step);
      var rest := LockCanBeFreed(Apply(s, step));
      steps := Prepend(s, step, rest);
    }
  }

  lemma {:induction false} NothingLeftStaysSafe(s: State, steps: seq<Step>)
    requires !s.panicked && s.core.buffer == [] && s.core.staged.None? && s.calls == multiset{}
    requires Runs(s, steps) && NoAddBegin(steps)
    ensures !After(s, steps).panicked
    decreases |steps|
  {
    if steps != [] {
      assert !steps[0].AddBegin?;
      NothingLeftStaysSafe(Apply(s, steps[0]), steps[1..]);
    }
  }

  /** Some event has not reached the queue: its Add is waiting for the lock, or it is buffered or
      staged. */
  predicate Leftover(s: State) {
    s.core.buffer != [] || s.core.staged.Some? || s.calls != multiset{}
  }

  /** With the queue closed, one more flush of what is staged or buffered panics. */
  lemma HeldEventIsFatal(s: State) returns (steps: seq<Step>)
    requires Inv(s) && s.closed && !s.panicked && (s.core.buffer != [] || s.core.staged.Some?)
    ensures Runs(s, steps) && NoAddBegin(steps) && After(s, steps).panicked
  {
    hide Conserved;
    if s.core.staged.Some? {
      steps := Prepend(s, EnqueueStaged, []);
    } else {
      var t := if s.holder.Free? then s else Apply(s, Unlock);
      var t1 := Apply(t, CloseBegin);
      var t2 := Apply(t1, CloseLock);
      steps := Prepend(t2, EnqueueStaged, []);
      steps := Prepend(t1, CloseLock, steps);
      steps := Prepend(t, CloseBegin, steps);
      if !s.holder.Free? {
        steps := Prepend(s, Unlock, steps);
      }
    }
  }

  lemma WaitingEventIsFatal(s: State) returns (steps: seq<Step>)
    requires Inv(s) && s.closed && !s.panicked && s.core.staged.None? && s.calls != multiset{}
    ensures Runs(s, steps) && NoAddBegin(steps) && After(s, steps).panicked
  {
    hide Conserved, Runs, After;
    var t := s;
    if !s.holder.Free? {
      StepKeepsInv(s, Unlock);
      t := Apply(s, Unlock);
    }
    var e :| e in t.calls;
    StepKeepsInv(t, AddLock(e));
    steps := HeldEventIsFatal(Apply(t, AddLock(e)));
    steps := Prepend(t, AddLock(e), steps);
    if !s.holder.Free? {
      steps := Prepend(s, Unlock, steps);
    }
  }

  /** Once the queue is closed, a panic lies ahead, without any further Add beginning, exactly when an
      event was left behind. */
  lemma {:induction false} LeftoverIsFatal(s: State) returns (steps: seq<Step>)
    requires Inv(s) && s.closed && !s.panicked
    ensures Leftover(s) ==> Runs(s, steps) && NoAddBegin(steps) && After(s, steps).panicked
    ensures !Leftover(s) ==> forall other :: Runs(s, other) && NoAddBegin(other) ==> !After(s, other).panicked
  {
    hide Inv, Runs, After;
    steps := [];
    if s.core.buffer != [] || s.core.staged.Some? {
      steps := HeldEventIsFatal(s);
    } else if s.calls != multiset{} {
      steps := WaitingEventIsFatal(s);
    } else {
      forall other | Runs(s, other) && NoAddBegin(other)
        ensures !After(s, other).panicked
      {
        NothingLeftStaysSafe(s, other);
      }
    }
  }

  /** From every state with an Add waiting for the lock, a Close that begins now can lead to a panic
      without any further Add. */
  lemma WaitingAddCanPanic(s: State) returns (steps: seq<Step>)
    requires Inv(s) && !s.closed && !s.panicked && s.calls != multiset{}
    ensures Runs(s, [CloseBegin] + steps) && NoAddBegin(steps) && After(s, [CloseBegin] + steps).panicked
  {
    hide Conserved, Runs, After;
    StepKeepsInv(s, CloseBegin);
    var s1 := Apply(s, CloseBegin);
    var a := LockCanBeFreed(s1);
    var t := After(s1, a);
    StepKeepsInv(t, CloseLock);
    var t1 := Apply(t, CloseLock);
    var b := LockCanBeFreed(t1);
    var u := After(t1, b);
    StepKeepsInv(u, CloseQueue);
    var c := LeftoverIsFatal(Apply(u, CloseQueue));
    c := Prepend(u, CloseQueue, c);
    Chain(t1, b, c);
    c := Prepend(t, CloseLock, b + c);
    Chain(s1, a, c);
    steps := a + c;
    c := Prepend(s, CloseBegin, steps);
  }

  lemma {:induction false} UncancelledIsDisciplined(s: State, steps: seq<Step>)
    requires Runs(s, steps) && !After(s, steps).cancelled
    ensures DisciplinedRun(s, steps)
    decreases |steps|
  {
    if steps != [] {
      if Apply(s, steps[0]).cancelled {
        StaysCancelled(Apply(s, steps[0]), steps[1..]);
      }
      UncancelledIsDisciplined(Apply(s, steps[0]), steps[1..]);
    }
  }

  lemma {:induction false} CancelledIsDisciplined(s: State, steps: seq<Step>)
    requires s.cancelled && Runs(s, steps) && NoAddBegin(steps)
    ensures DisciplinedRun(s, steps)
    decreases |steps|
  {
    if steps != [] {
      assert !steps[0].AddBegin?;
      CancelledIsDisciplined(Apply(s, steps[0]), steps[1..]);
    }
  }

  /** The first Close is safe, if no Add begins after it, exactly when no Add is waiting for the lock:
      in every run up to it, whatever is buffered, staged, queued or in flight. */
  lemma FirstCloseIsSafeExactly(maxSize: nat, steps: seq<Step>)
    requires Runs(Init(maxSize), steps) && !After(Init(maxSize), steps).cancelled
    ensures var s := After(Init(maxSize), steps);
            s.calls == multiset{} <==>
            forall more :: Runs(s, [CloseBegin] + more) && NoAddBegin(more) ==>
              !After(s, [CloseBegin] + more).panicked
  {
    hide Conserved, Runs, After;
    var s := After(Init(maxSize), steps);
    InitShutdownInv(maxSize);
    UncancelledIsDisciplined(Init(maxSize), steps);
    RunKeepsShutdownInv(Init(maxSize), steps);
    if s.calls == multiset{} {
      forall more | Runs(s, [CloseBegin] + more) && NoAddBegin(more)
        ensures !After(s, [CloseBegin] + more).panicked
      {
        StepKeepsShutdownInv(s, CloseBegin);
        FirstStep(s, CloseBegin, more);
        CancelledIsDisciplined(Apply(s, CloseBegin), more);
        RunKeepsShutdownInv(Apply(s, CloseBegin), more);
      }
    } else {
      var more := WaitingAddCanPanic(s);
    }
  }

  lemma FirstStep(s: State, step: Step, rest: seq<Step>)
    requires Runs(s, [step] + rest)
    ensures Enabled(s, step) && Runs(Apply(s, step), rest)
    ensures After(s, [step] + rest) == After(Apply(s, step), rest)
  {
    hide Enabled, Apply;
    assert ([step] + rest)[1..] == rest;
  }
}
