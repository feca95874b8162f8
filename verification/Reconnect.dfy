/** The cloud client's reconnection: goroutines that pass a single-flight gate, back off, dial, and on
    success replace the rotation timer; sends, receivers and timers that start them; and Close. The
    first connection, made before anything else runs, is one step. */
module Reconnect {
  import opened Samples

  // ======================= Backoff =======================

  /** d * 2^k */
  function Scaled(d: int, k: nat): int {
    if k == 0 then d else 2 * Scaled(d, k - 1)
  }

  /** The wait before attempt k + 1: the first is d0, later ones double and stop at dmax. */
  function NthWait(d0: int, dmax: int, k: nat): int {
    if k == 0 then d0 else Min(Scaled(d0, k), dmax)
  }

  /** What a goroutine that waits for a duration sleeps: a negative one is no wait. */
  function Slept(delay: int): nat { Max(delay, 0) }

  /** How the loops update the delay after a failure. */
  function Doubled(delay: int, dmax: int): int {
    if delay * 2 > dmax then dmax else delay * 2
  }

  lemma DoubledIsNext(d0: int, dmax: int, delay: int, k: nat)
    requires Slept(delay) == Slept(NthWait(d0, dmax, k))
    ensures Slept(Doubled(delay, dmax)) == Slept(NthWait(d0, dmax, k + 1))
  {
    assert Scaled(d0, k + 1) == 2 * Scaled(d0, k);
  }

  /** The waits of the background connector over a number of failed attempts, in seconds; settings that
      are not positive become 5 and 60. */
  method ConnectorWaits(reconnectDelay: int, maxReconnect: int, failures: nat) returns (waits: seq<int>)
    ensures |waits| == failures
    ensures var d0 := if reconnectDelay <= 0 then 5 else reconnectDelay;
            var dmax := if maxReconnect <= 0 then 60 else maxReconnect;
            && (forall k :: 0 <= k < failures ==> waits[k] == NthWait(d0, dmax, k) > 0)
            && (failures > 0 ==> waits[0] == d0)
            && (forall k :: 0 < k < failures ==> waits[k] == Min(2 * waits[k - 1], dmax))
  {
    var delay := if reconnectDelay <= 0 then 5 else reconnectDelay;
    var maxDelay := if maxReconnect <= 0 then 60 else maxReconnect;
    ghost var d0 := delay;
    waits := [];
    for attempt := 0 to failures
      invariant |waits| == attempt && delay > 0 && delay == NthWait(d0, maxDelay, attempt)
      invariant forall k :: 0 <= k < attempt ==> waits[k] == NthWait(d0, maxDelay, k) > 0
      invariant attempt > 0 ==> waits[0] == d0 && delay == Min(2 * waits[attempt - 1], maxDelay)
      invariant forall k :: 0 < k < attempt ==> waits[k] == Min(2 * waits[k - 1], maxDelay)
    {
      waits := waits + [delay];
      DoubledIsNext(d0, maxDelay, delay, attempt);
      delay := delay * 2;
      if delay > maxDelay {
        delay := maxDelay;
      }
    }
  }

  /** With settings in order, waits never shrink and never exceed the larger setting. */
  lemma {:induction false} WaitsGrowToMax(d0: int, dmax: int, k: nat)
    requires 0 <= d0 <= dmax
    ensures 0 <= NthWait(d0, dmax, k) <= NthWait(d0, dmax, k + 1) <= dmax
  {
    if k > 0 {
      WaitsGrowToMax(d0, dmax, k - 1);
    }
    assert Scaled(d0, k + 1) == 2 * Scaled(d0, k);
  }

  // ======================= The machine =======================

  /** A goroutine running reconnect: before the gate, or past it with the delay it waits next and the
      failures so far. */
  datatype Phase =
    | AtGate
    | Looping(delay: int, failures: nat)
    | Sleeping(delay: int, failures: nat)
    | Dialing(delay: int, failures: nat)
    | StoppingTimer  // connected, about to cancel the old rotation timer
    | ArmingTimer    // about to set the new one
    | Leaving        // about to clear the gate

  datatype Timer = Live | Cancelled | Over

  datatype Client = Client(
    d0: int,
    dmax: int,
    rotates: bool,             // a positive rotation interval is configured
    loops: map<nat, Phase>,    // reconnect goroutines by identity
    reconnecting: bool,        // the gate
    owner: Option<nat>,        // who set the gate
    timers: map<nat, Timer>,   // rotation timers by identity
    rotateCancel: Option<nat>, // the timer the stored cancel function belongs to
    receivers: nat,
    connected: bool,
    done: bool,                // the client context is cancelled
    nextId: nat)                // next identity

  /** After the first connection. */
  function Connected(d0: int, dmax: int, rotates: bool): Client {
    Client(d0, dmax, rotates, map[], false, None,
           if rotates then map[0 := Live] else map[], if rotates then Some(0) else None, 1, true, false, 1)
  }

  datatype Event =
    | SendFails
    | ReceiveFails
    | ReceiverStops
    | TimerFires(t: nat)
    | TimerEnds(t: nat)
    | Gate(g: nat)
    | LoopTop(g: nat)
    | Wake(g: nat)
    | WakeCancelled(g: nat)
    | DialFails(g: nat)
    | DialSucceeds(g: nat)
    | StopTimer(g: nat)
    | ArmTimer(g: nat)
    | Leave(g: nat)
    | CloseStopsTimer
    | CloseCancels

  predicate PastGate(p: Phase) { !p.AtGate? }

  predicate Enabled(c: Client, e: Event) {
    match e
    case SendFails => c.connected
    case ReceiveFails => c.receivers > 0
    case ReceiverStops => c.receivers > 0 && c.done
    case TimerFires(t) => t in c.timers && !c.timers[t].Over?
    case TimerEnds(t) => t in c.timers && c.timers[t].Cancelled?
    case Gate(g) => g in c.loops && c.loops[g].AtGate?
    case LoopTop(g) => g in c.loops && c.loops[g].Looping?
    case Wake(g) => g in c.loops && c.loops[g].Sleeping?
    case WakeCancelled(g) => g in c.loops && c.loops[g].Sleeping? && c.done
    case DialFails(g) => g in c.loops && c.loops[g].Dialing?
    case DialSucceeds(g) => g in c.loops && c.loops[g].Dialing?
    case StopTimer(g) => g in c.loops && c.loops[g].StoppingTimer?
    case ArmTimer(g) => g in c.loops && c.loops[g].ArmingTimer?
    case Leave(g) => g in c.loops && c.loops[g].Leaving?
    case CloseStopsTimer => true
    case CloseCancels => true
  }

  /** go c.reconnect() */
  function Spawn(c: Client): Client {
    c.(loops := c.loops[c.nextId := AtGate], nextId := c.nextId + 1)
  }

  /** stopRotationTimer: cancel what the stored function belongs to, and forget it. */
  function Stopped(c: Client): Client {
    if c.rotateCancel.Some? then
      c.(timers := if c.rotateCancel.value in c.timers && c.timers[c.rotateCancel.value].Live?
                   then c.timers[c.rotateCancel.value := Cancelled] else c.timers,
         rotateCancel := None)
    else c
  }

  /** A new timer under a context derived from the client's: already cancelled if that is. */
  function Armed(c: Client): Client {
    if !c.rotates then c
    else c.(timers := c.timers[c.nextId := if c.done then Cancelled else Live],
            rotateCancel := Some(c.nextId), nextId := c.nextId + 1)
  }

  function At(c: Client, g: nat, p: Phase): Client { c.(loops := c.loops[g := p]) }

  function Apply(c: Client, e: Event): Client
    requires Enabled(c, e)
  {
    match e
    case SendFails => Spawn(c.(connected := false))
    case ReceiveFails => Spawn(c.(connected := false, receivers := c.receivers - 1))
    case ReceiverStops => c.(receivers := c.receivers - 1)
    case TimerFires(t) => Spawn(c.(timers := c.timers[t := Over]))
    case TimerEnds(t) => c.(timers := c.timers[t := Over])
    case Gate(g) =>
      if c.reconnecting then c.(loops := c.loops - {g})
      else At(c, g, Looping(c.d0, 0)).(reconnecting := true, owner := Some(g))
    case LoopTop(g) =>
      At(c, g, if c.done then Leaving else Sleeping(c.loops[g].delay, c.loops[g].failures))
    case Wake(g) => At(c, g, Dialing(c.loops[g].delay, c.loops[g].failures))
    case WakeCancelled(g) => At(c, g, Leaving)
    case DialFails(g) =>
      At(c, g, Looping(Doubled(c.loops[g].delay, c.dmax), c.loops[g].failures + 1))
    case DialSucceeds(g) => At(c, g, StoppingTimer).(connected := true, receivers := c.receivers + 1)
    case StopTimer(g) => At(Stopped(c), g, ArmingTimer)
    case ArmTimer(g) => At(Armed(c), g, Leaving)
    case Leave(g) => c.(loops := c.loops - {g}, reconnecting := false, owner := None)
    case CloseStopsTimer => Stopped(c)
    case CloseCancels =>
      c.(done := true,
         timers := map t | t in c.timers :: if c.timers[t].Live? then Cancelled else c.timers[t])
  }

  predicate Runs(c: Client, events: seq<Event>)
    decreases |events|
  {
    events == [] || (Enabled(c, events[0]) && Runs(Apply(c, events[0]), events[1..]))
  }

  function After(c: Client, events: seq<Event>): Client
    requires Runs(c, events)
    decreases |events|
  {
    if events == [] then c else After(Apply(c, events[0]), events[1..])
  }

  // ---- Single flight ----

  /** The gate is set exactly while one goroutine, its owner, is past it. */
  ghost predicate GateInv(c: Client) {
    && (c.reconnecting <==> c.owner.Some?)
    && (c.owner.Some? ==> c.owner.value in c.loops)
    && (forall g :: g in c.loops ==> (PastGate(c.loops[g]) <==> c.owner == Some(g)))
    && (forall g :: g in c.loops ==> g < c.nextId)
  }

  /** Every delay is the one its failures call for. */
  ghost predicate DelayInv(c: Client) {
    forall g :: g in c.loops && (c.loops[g].Looping? || c.loops[g].Sleeping? || c.loops[g].Dialing?) ==>
      Slept(c.loops[g].delay) == Slept(NthWait(c.d0, c.dmax, c.loops[g].failures))
  }

  /** Only the timer the stored cancel function belongs to can be live, none while the owner is between
      stopping and arming, and none once the context is cancelled. */
  ghost predicate TimerInv(c: Client) {
    && (forall t :: t in c.timers && c.timers[t].Live? ==> c.rotateCancel == Some(t) && !c.done)
    && (forall g :: g in c.loops && c.loops[g].ArmingTimer? ==> c.rotateCancel.None?)
    && (forall t :: t in c.timers ==> t < c.nextId)
  }

  /** A goroutine that stays on its side of the gate moves on. */
  lemma MoveKeepsGate(c: Client, g: nat, p: Phase)
    requires GateInv(c) && g in c.loops && (PastGate(p) <==> PastGate(c.loops[g]))
    ensures GateInv(At(c, g, p))
  {
  }

  lemma SpawnKeepsGate(c: Client)
    requires GateInv(c)
    ensures GateInv(Spawn(c))
  {
  }

  /** Going through the gate, being turned away, and clearing it. */
  lemma GateKeepsGate(c: Client, g: nat)
    requires GateInv(c)
    ensures Enabled(c, Gate(g)) ==> GateInv(Apply(c, Gate(g)))
    ensures Enabled(c, Leave(g)) ==> GateInv(Apply(c, Leave(g)))
  {
  }

  lemma StepKeepsGate(c: Client, e: Event)
    requires GateInv(c) && Enabled(c, e)
    ensures GateInv(Apply(c, e))
  {
    match e
    case SendFails => SpawnKeepsGate(c.(connected := false));
    case ReceiveFails => SpawnKeepsGate(c.(connected := false, receivers := c.receivers - 1));
    case TimerFires(t) => SpawnKeepsGate(c.(timers := c.timers[t := Over]));
    case Gate(g) => GateKeepsGate(c, g);
    case Leave(g) => GateKeepsGate(c, g);
    case LoopTop(g) => MoveKeepsGate(c, g, Apply(c, e).loops[g]);
    case Wake(g) => MoveKeepsGate(c, g, Apply(c, e).loops[g]);
    case WakeCancelled(g) => MoveKeepsGate(c, g, Leaving);
    case DialFails(g) => MoveKeepsGate(c, g, Apply(c, e).loops[g]);
    case DialSucceeds(g) => MoveKeepsGate(c, g, StoppingTimer);
    case StopTimer(g) => MoveKeepsGate(Stopped(c), g, ArmingTimer);
    case ArmTimer(g) => MoveKeepsGate(Armed(c), g, Leaving);
    case _ =>
  }

  lemma StepKeepsDelays(c: Client, e: Event)
    requires DelayInv(c) && Enabled(c, e)
    ensures DelayInv(Apply(c, e))
  {
    hide NthWait, Doubled;
    if e.DialFails? {
      DoubledIsNext(c.d0, c.dmax, c.loops[e.g].delay, c.loops[e.g].failures);
    } else if e.Gate? {
      FirstWait(c.d0, c.dmax);
    }
  }

  lemma FirstWait(d0: int, dmax: int)
    ensures NthWait(d0, dmax, 0) == d0
  {
  }

  /** Only the owner of the gate stands between stopping and arming. */
  lemma OnlyOwnerArms(c: Client, g: nat, h: nat)
    requires GateInv(c) && g in c.loops && h in c.loops && PastGate(c.loops[g]) && PastGate(c.loops[h])
    ensures g == h
  {
  }

  lemma SpawnKeepsTimers(c: Client)
    requires TimerInv(c)
    ensures TimerInv(Spawn(c))
  {
  }

  /** A goroutine that is not between stopping and arming touches no timer. */
  lemma MoveKeepsTimers(c: Client, g: nat, p: Phase)
    requires TimerInv(c) && !p.ArmingTimer?
    ensures TimerInv(At(c, g, p))
  {
  }

  lemma StoppedKeepsTimers(c: Client)
    requires TimerInv(c)
    ensures TimerInv(Stopped(c)) && Stopped(c).rotateCancel.None? && Stopped(c).loops == c.loops
  {
  }

  /** With the stored function used up, stopping a goroutine short of arming is safe. */
  lemma WaitToArm(c: Client, g: nat)
    requires TimerInv(c) && c.rotateCancel.None?
    ensures TimerInv(At(c, g, ArmingTimer))
  {
  }

  lemma ArmKeepsTimers(c: Client, g: nat)
    requires GateInv(c) && TimerInv(c) && g in c.loops && c.loops[g].ArmingTimer?
    ensures TimerInv(At(Armed(c), g, Leaving))
  {
    forall h | h in c.loops && c.loops[h].ArmingTimer?
      ensures h == g
    {
      OnlyOwnerArms(c, g, h);
    }
  }

  lemma TimerOver(c: Client, t: nat)
    requires TimerInv(c) && t in c.timers
    ensures TimerInv(c.(timers := c.timers[t := Over]))
  {
  }

  lemma StepKeepsTimers(c: Client, e: Event)
    requires GateInv(c) && TimerInv(c) && Enabled(c, e)
    ensures TimerInv(Apply(c, e))
  {
    hide GateInv;
    match e
    case SendFails => SpawnKeepsTimers(c.(connected := false));
    case ReceiveFails => SpawnKeepsTimers(c.(connected := false, receivers := c.receivers - 1));
    case TimerFires(t) => TimerOver(c, t); SpawnKeepsTimers(c.(timers := c.timers[t := Over]));
    case TimerEnds(t) => TimerOver(c, t);
    case StopTimer(g) => StoppedKeepsTimers(c); WaitToArm(Stopped(c), g);
    case ArmTimer(g) => ArmKeepsTimers(c, g);
    case CloseStopsTimer => StoppedKeepsTimers(c);
    case Gate(g) => MoveKeepsTimers(c, g, Looping(c.d0, 0));
    case LoopTop(g) => MoveKeepsTimers(c, g, Apply(c, e).loops[g]);
    case Wake(g) => MoveKeepsTimers(c, g, Apply(c, e).loops[g]);
    case WakeCancelled(g) => MoveKeepsTimers(c, g, Leaving);
    case DialFails(g) => MoveKeepsTimers(c, g, Apply(c, e).loops[g]);
    case DialSucceeds(g) => MoveKeepsTimers(c, g, StoppingTimer);
    case _ =>
  }

  lemma HelpersKeepSettings(c: Client, g: nat, p: Phase)
    ensures SameSettings(Stopped(c), c) && SameSettings(Armed(c), c)
    ensures SameSettings(Spawn(c), c) && SameSettings(At(c, g, p), c)
  {
  }

  predicate SameSettings(c: Client, d: Client) {
    c.d0 == d.d0 && c.dmax == d.dmax && c.rotates == d.rotates
  }

  lemma SettingsStay(c: Client, e: Event)
    requires Enabled(c, e)
    ensures SameSettings(Apply(c, e), c)
  {
    hide Stopped, Armed, Doubled;
    HelpersKeepSettings(c, 0, Leaving);
  }

  lemma {:induction false} RunKeepsAll(c: Client, events: seq<Event>)
    requires GateInv(c) && DelayInv(c) && TimerInv(c) && Runs(c, events)
    ensures var r := After(c, events);
            GateInv(r) && DelayInv(r) && TimerInv(r) && r.d0 == c.d0 && r.dmax == c.dmax
    decreases |events|
  {
    hide GateInv, DelayInv, TimerInv, Enabled, Apply;
    if events != [] {
      SettingsStay(c, events[0]);
      StepKeepsGate(c, events[0]);
      StepKeepsDelays(c, events[0]);
      StepKeepsTimers(c, events[0]);
      RunKeepsAll(Apply(c, events[0]), events[1..]);
    }
  }

  /** In every reachable state at most one goroutine is past the gate, and the gate is set exactly when
      one is. */
  lemma SingleFlight(d0: int, dmax: int, rotates: bool, events: seq<Event>)
    requires Runs(Connected(d0, dmax, rotates), events)
    ensures var c := After(Connected(d0, dmax, rotates), events);
            && (forall g, h :: g in c.loops && h in c.loops && PastGate(c.loops[g]) && PastGate(c.loops[h]) ==> g == h)
            && (c.reconnecting <==> exists g :: g in c.loops && PastGate(c.loops[g]))
  {
    RunKeepsAll(Connected(d0, dmax, rotates), events);
    var c := After(Connected(d0, dmax, rotates), events);
    if c.reconnecting {
      assert c.owner.value in c.loops && PastGate(c.loops[c.owner.value]);
    }
  }

  /** In every reachable state at most one rotation timer is live and uncancelled, and none once the
      client context is cancelled. */
  lemma SingleRotationTimer(d0: int, dmax: int, rotates: bool, events: seq<Event>)
    requires Runs(Connected(d0, dmax, rotates), events)
    ensures var c := After(Connected(d0, dmax, rotates), events);
            && (forall t, u :: t in c.timers && u in c.timers && c.timers[t].Live? && c.timers[u].Live? ==> t == u)
            && (c.done ==> forall t :: t in c.timers ==> !c.timers[t].Live?)
  {
    RunKeepsAll(Connected(d0, dmax, rotates), events);
  }

  /** In every reachable state a goroutine that sleeps after k failures sleeps d0 when k is zero and
      min(d0 * 2^k, dmax) otherwise. */
  lemma ReconnectBackoff(d0: int, dmax: int, rotates: bool, events: seq<Event>, g: nat)
    requires Runs(Connected(d0, dmax, rotates), events)
    requires var c := After(Connected(d0, dmax, rotates), events);
             g in c.loops && c.loops[g].Sleeping?
    ensures var p := After(Connected(d0, dmax, rotates), events).loops[g];
            Slept(p.delay) == if p.failures == 0 then Slept(d0) else Slept(Min(Scaled(d0, p.failures), dmax))
  {
    RunKeepsAll(Connected(d0, dmax, rotates), events);
  }

  // ---- Receivers and flags ----

  /** How many receivers the events of a run have started, less those they have ended. */
  function ReceiversStarted(events: seq<Event>): int
    decreases |events|
  {
    if events == [] then 0
    else
      ReceiversStarted(events[1..]) +
      match events[0]
      case DialSucceeds(_) => 1
      case ReceiveFails => -1
      case ReceiverStops => -1
      case _ => 0
  }

  /** Whether the last of the dials that succeeded and the failures was a dial. */
  function LastWasDial(events: seq<Event>, before: bool): bool
    decreases |events|
  {
    if events == [] then before
    else LastWasDial(events[1..], events[0].DialSucceeds? || (before && !StreamFails(events[0])))
  }

  predicate StreamFails(e: Event) { e.SendFails? || e.ReceiveFails? }

  lemma StepFlags(c: Client, e: Event)
    requires Enabled(c, e)
    ensures var d := Apply(c, e);
            && d.receivers == c.receivers + ReceiversStarted([e])
            && (d.connected <==> e.DialSucceeds? || (c.connected && !StreamFails(e)))
            && (d.done <==> c.done || e.CloseCancels?)
  {
    hide Doubled, Armed, Stopped;
    StopAndArmKeepFlags(c);
    assert [e][1..] == [];
  }

  lemma StopAndArmKeepFlags(c: Client)
    ensures Stopped(c).receivers == c.receivers && Stopped(c).connected == c.connected && Stopped(c).done == c.done
    ensures Armed(c).receivers == c.receivers && Armed(c).connected == c.connected && Armed(c).done == c.done
  {
  }

  /** Over every run: each dial that succeeds starts one receiver and each failure of one ends one; the
      client counts as connected exactly when the last of the successful dials and the failures was a
      dial, and as closed exactly once Close has cancelled. */
  lemma {:induction false} FlagsFollowEvents(c: Client, events: seq<Event>)
    requires Runs(c, events)
    ensures var d := After(c, events);
            && d.receivers == c.receivers + ReceiversStarted(events)
            && (d.connected <==> LastWasDial(events, c.connected))
            && (d.done <==> c.done || CloseCancels in events)
    decreases |events|
  {
    hide Enabled, Apply;
    if events != [] {
      StepFlags(c, events[0]);
      FlagsFollowEvents(Apply(c, events[0]), events[1..]);
      assert [events[0]][1..] == [] && events == [events[0]] + events[1..];
    }
  }

  /** Stopping the rotation timer leaves none live, in a reconnection as in Close. */
  lemma StopLeavesNoneLive(c: Client, e: Event)
    requires TimerInv(c) && Enabled(c, e) && (e.StopTimer? || e.CloseStopsTimer?)
    ensures var d := Apply(c, e);
            d.rotateCancel.None? && forall t :: t in d.timers ==> !d.timers[t].Live?
  {
  }

  // ---- Rotation ----

  /** Unless Close has stopped it, a configured rotation is always set: the stored function belongs to a
      timer, fired or live while the client is open, except while the owner of the gate is between
      stopping the old one and arming the new. */
  ghost predicate RotationInv(c: Client) {
    c.rotates ==>
      && (c.rotateCancel.None? ==> exists g :: g in c.loops && c.loops[g].ArmingTimer?)
      && (c.rotateCancel.Some? ==> c.rotateCancel.value in c.timers)
      && (c.rotateCancel.Some? && !c.done ==> !c.timers[c.rotateCancel.value].Cancelled?)
  }

  lemma StepKeepsRotation(c: Client, e: Event)
    requires GateInv(c) && TimerInv(c) && RotationInv(c) && Enabled(c, e) && !e.CloseStopsTimer?
    ensures RotationInv(Apply(c, e))
  {
    var d := Apply(c, e);
    if c.rotates && d.rotateCancel.None? {
      if e.StopTimer? {
        assert d.loops[e.g].ArmingTimer?;
      } else {
        var g :| g in c.loops && c.loops[g].ArmingTimer?;
        assert d.loops[g].ArmingTimer?;
      }
    }
  }

  predicate NoCloseStop(events: seq<Event>) {
    forall i :: 0 <= i < |events| ==> !events[i].CloseStopsTimer?
  }

  lemma {:induction false} RunKeepsRotation(c: Client, events: seq<Event>)
    requires GateInv(c) && TimerInv(c) && RotationInv(c) && Runs(c, events) && NoCloseStop(events)
    ensures RotationInv(After(c, events)) && After(c, events).rotates == c.rotates
    decreases |events|
  {
    hide GateInv, TimerInv, RotationInv, Enabled, Apply;
    if events != [] {
      assert !events[0].CloseStopsTimer?;
      SettingsStay(c, events[0]);
      StepKeepsGate(c, events[0]);
      StepKeepsTimers(c, events[0]);
      StepKeepsRotation(c, events[0]);
      RunKeepsRotation(Apply(c, events[0]), events[1..]);
    }
  }

  /** In every run in which Close has not stopped it, a configured rotation is pending or has fired, or a
      goroutine is about to arm it: reconnecting never loses the rotation. */
  lemma RotationIsNeverLost(d0: int, dmax: int, events: seq<Event>)
    requires Runs(Connected(d0, dmax, true), events) && NoCloseStop(events)
    ensures var c := After(Connected(d0, dmax, true), events);
            || (exists g :: g in c.loops && c.loops[g].ArmingTimer?)
            || (c.rotateCancel.Some? && c.rotateCancel.value in c.timers
                && (!c.done ==> c.timers[c.rotateCancel.value] != Cancelled))
  {
    RunKeepsRotation(Connected(d0, dmax, true), events);
  }

  /** Arming leaves a live timer exactly when a rotation is configured and the client is open. */
  lemma ArmedExactly(c: Client, g: nat)
    requires GateInv(c) && TimerInv(c) && Enabled(c, ArmTimer(g))
    ensures var d := Apply(c, ArmTimer(g));
            (exists t :: t in d.timers && d.timers[t].Live?) <==> c.rotates && !c.done
  {
    var d := Apply(c, ArmTimer(g));
    if c.rotates && !c.done {
      assert d.timers[c.nextId].Live?;
    }
  }

  /** A timer that fires is over and sends a goroutine to the gate. */
  lemma FiredTimerReconnects(c: Client, t: nat)
    requires GateInv(c) && Enabled(c, TimerFires(t))
    ensures var d := Apply(c, TimerFires(t));
            && d.timers == c.timers[t := Over] && d.connected == c.connected
            && exists g :: g !in c.loops && g in d.loops && d.loops == c.loops[g := AtGate]
  {
    var d := Apply(c, TimerFires(t));
    assert c.nextId !in c.loops && d.loops == c.loops[c.nextId := AtGate];
  }

  // ---- After Close ----

  function StepsToLeave(p: Phase): nat {
    match p
    case AtGate => 5
    case Dialing(_, _) => 4
    case Looping(_, _) => 3
    case Sleeping(_, _) => 3
    case StoppingTimer => 3
    case ArmingTimer => 2
    case Leaving => 1
  }

  lemma StopAndArmKeepLoops(c: Client)
    ensures Stopped(c).loops == c.loops && Stopped(c).done == c.done
    ensures Armed(c).loops == c.loops && Armed(c).done == c.done
  {
  }

  /** Once closed, no goroutine begins to wait. */
  lemma NoWaitAfterClose(c: Client, e: Event)
    requires Enabled(c, e) && c.done
    ensures Apply(c, e).done
    ensures var d := Apply(c, e);
            forall g :: g in d.loops && d.loops[g].Sleeping? ==> g in c.loops && c.loops[g].Sleeping?
  {
    hide Doubled, Armed, Stopped;
    StopAndArmKeepLoops(c);
  }

  /** How a closed client's goroutine past the gate moves on. */
  function NextMove(p: Phase, g: nat): Event {
    match p
    case AtGate => Gate(g)
    case Dialing(_, _) => DialFails(g)
    case Looping(_, _) => LoopTop(g)
    case Sleeping(_, _) => WakeCancelled(g)
    case StoppingTimer => StopTimer(g)
    case ArmingTimer => ArmTimer(g)
    case Leaving => Leave(g)
  }

  predicate MovedTo(c: Client, d: Client, g: nat, p: Phase)
    requires g in c.loops
  {
    PastGate(p) && d.loops == c.loops[g := p] && StepsToLeave(p) < StepsToLeave(c.loops[g])
  }

  lemma MovesOn(c: Client, g: nat)
    requires c.done && g in c.loops && (c.loops[g].AtGate? ==> !c.reconnecting)
    ensures var e := NextMove(c.loops[g], g);
            && Enabled(c, e) && Apply(c, e).done
            && (if e.Leave? then Apply(c, e).loops == c.loops - {g}
                else exists p: Phase :: MovedTo(c, Apply(c, e), g, p))
  {
    var e := NextMove(c.loops[g], g);
    if !e.Leave? {
      var p := Apply(c, e).loops[g];
      assert MovedTo(c, Apply(c, e), g, p);
    }
  }

  /** A closed client's goroutine leaves: from past the gate, or through it when it is free. */
  lemma {:induction false} LoopEnds(c: Client, g: nat) returns (events: seq<Event>, d: Client)
    requires GateInv(c) && c.done && g in c.loops && (c.loops[g].AtGate? ==> !c.reconnecting)
    ensures RunTo(c, events, d) && |events| <= StepsToLeave(c.loops[g])
    ensures GateInv(d) && d.done && d.loops == c.loops - {g}
    decreases StepsToLeave(c.loops[g])
  {
    var e := NextMove(c.loops[g], g);
    MovesOn(c, g);
    StepKeepsGate(c, e);
    hide GateInv, Enabled, Apply, NextMove, RunTo;
    if e.Leave? {
      d := Apply(c, e);
      RunToStep(c, e, d);
      events := [e];
    } else {
      var p: Phase :| MovedTo(c, Apply(c, e), g, p);
      events, d := LoopEnds(Apply(c, e), g);
      events := RunToCons(c, e, events, d);
      assert c.loops[g := p] - {g} == c.loops - {g};
    }
  }

  /** After Close, wherever the goroutines were, they can all end, each in at most five steps. */
  lemma {:induction false} ClosedClientWindsDown(c: Client) returns (events: seq<Event>, d: Client)
    requires GateInv(c) && c.done
    ensures RunTo(c, events, d) && d.loops == map[] && |events| <= 5 * |c.loops|
    decreases |c.loops|
  {
    if c.loops == map[] {
      events, d := [], c;
    } else {
      var g :| g in c.loops && (c.reconnecting ==> c.owner == Some(g));
      OwnerPastGate(c, g);
      hide GateInv, RunTo;
      var ends, e := LoopEnds(c, g);
      OneFewer(c.loops, g);
      events, d := ClosedClientWindsDown(e);
      RunToAppend(c, ends, e, events, d);
      events := ends + events;
    }
  }

  lemma OwnerPastGate(c: Client, g: nat)
    requires GateInv(c) && g in c.loops && (c.reconnecting ==> c.owner == Some(g))
    ensures c.loops[g].AtGate? ==> !c.reconnecting
  {
  }

  lemma OneFewer(loops: map<nat, Phase>, g: nat)
    requires g in loops
    ensures |loops - {g}| == |loops| - 1
  {
    assert (loops - {g}).Keys == loops.Keys - {g};
    assert |loops.Keys - {g}| == |loops.Keys| - 1;
  }

  // ---- Wake-ups ----

  /** A goroutine that has a dial ahead of it, unless it is turned away at the gate. */
  predicate WillDial(p: Phase) { p.AtGate? || p.Looping? || p.Sleeping? || p.Dialing? }

  predicate Dialled(p: Phase) { p.StoppingTimer? || p.ArmingTimer? || p.Leaving? }

  /** A client that is down has a reconnection on the way. */
  ghost predicate WakeInv(c: Client) {
    c.connected || c.done || exists g :: g in c.loops && WillDial(c.loops[g])
  }

  /** The goroutine past the gate has its dial behind it. */
  ghost predicate OwnerDialled(c: Client) {
    exists g :: g in c.loops && Dialled(c.loops[g])
  }

  /** Everything but the failures, the timers and Close: what the goroutines do by themselves. */
  predicate Quiet(e: Event) {
    !e.SendFails? && !e.ReceiveFails? && !e.TimerFires? && !e.CloseCancels?
  }

  predicate AllQuiet(events: seq<Event>) {
    forall i :: 0 <= i < |events| ==> Quiet(events[i])
  }

  predicate Down(c: Client) { !c.connected && !c.done }

  /** Nothing the goroutines do by themselves can leave the client down for good. */
  ghost predicate Secure(c: Client) {
    WakeInv(c) && (Down(c) ==> !OwnerDialled(c))
  }

  /** Every step keeps this but the failure of a stream after the owner of the gate has dialled. */
  lemma SecureKeptExactly(c: Client, e: Event)
    requires GateInv(c) && Secure(c) && Enabled(c, e)
    ensures Secure(Apply(c, e)) <==> !(StreamFails(e) && OwnerDialled(c) && !c.done)
  {
    var d := Apply(c, e);
    if Down(d) {
      if StreamFails(e) {
        assert WillDial(d.loops[c.nextId]);
        if OwnerDialled(c) {
          var g :| g in c.loops && Dialled(c.loops[g]);
          assert Dialled(d.loops[g]);
        }
      } else if e.TimerFires? {
        assert WillDial(d.loops[c.nextId]);
      } else if e.Gate? {
        assert WillDial(d.loops[if c.reconnecting then c.owner.value else e.g]);
      } else {
        var g :| g in c.loops && WillDial(c.loops[g]);
        assert WillDial(d.loops[g]);
      }
    }
  }

  lemma {:induction false} QuietKeepsSecure(c: Client, events: seq<Event>)
    requires GateInv(c) && Secure(c) && Runs(c, events) && AllQuiet(events)
    ensures Secure(After(c, events))
    decreases |events|
  {
    hide GateInv, Secure, Enabled, Apply;
    if events != [] {
      assert Quiet(events[0]);
      StepKeepsGate(c, events[0]);
      SecureKeptExactly(c, events[0]);
      QuietKeepsSecure(Apply(c, events[0]), events[1..]);
    }
  }

  /** While the owner lingers past its dial, the gate turns everybody away. */
  lemma {:induction false} AllTurnedAway(c: Client, waiting: set<nat>) returns (events: seq<Event>)
    requires GateInv(c) && Down(c) && OwnerDialled(c)
    requires forall g :: g in waiting <==> g in c.loops && c.loops[g].AtGate?
    ensures Runs(c, events) && AllQuiet(events) && !WakeInv(After(c, events))
    decreases |waiting|
  {
    var o :| o in c.loops && Dialled(c.loops[o]);
    if waiting == {} {
      events := [];
    } else {
      var h :| h in waiting;
      var d := Apply(c, Gate(h));
      StepKeepsGate(c, Gate(h));
      assert Dialled(d.loops[o]);
      var rest := AllTurnedAway(d, waiting - {h});
      events := [Gate(h)] + rest;
      assert events[1..] == rest;
    }
  }

  /** A client that is down, with a reconnection on the way, can lose it by what the goroutines do by
      themselves exactly when the owner of the gate has already dialled. */
  lemma WakeUpLostExactly(c: Client)
    requires GateInv(c) && WakeInv(c) && Down(c)
    ensures (exists events :: Runs(c, events) && AllQuiet(events) && !WakeInv(After(c, events))) <==> OwnerDialled(c)
  {
    if OwnerDialled(c) {
      var events := AllTurnedAway(c, set g | g in c.loops && c.loops[g].AtGate?);
    } else {
      forall events | Runs(c, events) && AllQuiet(events)
        ensures WakeInv(After(c, events))
      {
        QuietKeepsSecure(c, events);
      }
    }
  }

  /** So the failure of a stream can leave the client down for good exactly when it comes after the owner
      of the gate has dialled and before it has cleared the gate. */
  lemma FailureStrandsExactly(c: Client, e: Event)
    requires GateInv(c) && Secure(c) && Enabled(c, e) && StreamFails(e)
    ensures (exists events :: Runs(Apply(c, e), events) && AllQuiet(events) && !WakeInv(After(Apply(c, e), events)))
            <==> OwnerDialled(c) && !c.done
  {
    hide GateInv, Runs, After;
    StepKeepsGate(c, e);
    SecureKeptExactly(c, e);
    var d := Apply(c, e);
    assert WillDial(d.loops[c.nextId]);
    if Down(d) {
      WakeUpLostExactly(d);
    } else {
      forall events | Runs(d, events) && AllQuiet(events)
        ensures WakeInv(After(d, events))
      {
        QuietKeepsSecure(d, events);
      }
    }
  }

  /** No stream fails while the owner of the gate is past its dial. */
  ghost predicate NoLateFailure(c: Client, events: seq<Event>)
    requires Runs(c, events)
    decreases |events|
  {
    events == [] ||
    ((StreamFails(events[0]) ==> !OwnerDialled(c)) && NoLateFailure(Apply(c, events[0]), events[1..]))
  }

  lemma {:induction false} RunKeepsSecure(c: Client, events: seq<Event>)
    requires GateInv(c) && Secure(c) && Runs(c, events) && NoLateFailure(c, events)
    ensures Secure(After(c, events))
    decreases |events|
  {
    hide GateInv, Secure, Enabled, Apply, OwnerDialled;
    if events != [] {
      StepKeepsGate(c, events[0]);
      SecureKeptExactly(c, events[0]);
      RunKeepsSecure(Apply(c, events[0]), events[1..]);
    }
  }

  /** In every run without such a late failure a client that is down always has a reconnection coming,
      and cannot lose it by what the goroutines do by themselves. */
  lemma DownMeansReconnecting(d0: int, dmax: int, rotates: bool, events: seq<Event>)
    requires Runs(Connected(d0, dmax, rotates), events) && NoLateFailure(Connected(d0, dmax, rotates), events)
    ensures Secure(After(Connected(d0, dmax, rotates), events))
  {
    RunKeepsSecure(Connected(d0, dmax, rotates), events);
  }

  /** It does happen: a receiver of the replaced stream fails after the new one is up and before the gate
      is cleared. The client stays down with nobody on the way, and no timer when none is configured. */
  lemma WakeUpCanBeLost(d0: int, dmax: int)
    ensures exists events ::
              && Runs(Connected(d0, dmax, false), events)
              && var c := After(Connected(d0, dmax, false), events);
                 !c.connected && !c.done && c.loops == map[] && c.timers == map[]
  {
    hide RunTo;
    var c := Connected(d0, dmax, false);
    var up := [SendFails, Gate(1), LoopTop(1), Wake(1), DialSucceeds(1)];
    var lost := [ReceiveFails, Gate(2), StopTimer(1), ArmTimer(1), Leave(1)];
    BackUp(d0, dmax);
    DownForGood(d0, dmax);
    RunToAppend(c, up, JustUp(d0, dmax), lost, c.(connected := false, nextId := 3));
    RunToRuns(c, up + lost, c.(connected := false, nextId := 3));
  }

  /** Reconnected after a failed send: the gate still set, two receivers. */
  function JustUp(d0: int, dmax: int): Client {
    Connected(d0, dmax, false).(loops := map[1 := StoppingTimer], reconnecting := true, owner := Some(1),
                                receivers := 2, nextId := 2)
  }

  lemma BackUp(d0: int, dmax: int)
    ensures RunTo(Connected(d0, dmax, false), [SendFails, Gate(1), LoopTop(1), Wake(1), DialSucceeds(1)],
                  JustUp(d0, dmax))
  {
    hide RunTo;
    var c := Connected(d0, dmax, false);
    var dialing := c.(connected := false, nextId := 2, reconnecting := true, owner := Some(1),
                      loops := map[1 := Dialing(d0, 0)]);
    RunToStep(dialing, DialSucceeds(1), JustUp(d0, dmax));
    var events := [DialSucceeds(1)];
    var sleeping := dialing.(loops := map[1 := Sleeping(d0, 0)]);
    assert Apply(sleeping, Wake(1)) == dialing;
    events := RunToCons(sleeping, Wake(1), events, JustUp(d0, dmax));
    var looping := dialing.(loops := map[1 := Looping(d0, 0)]);
    assert Apply(looping, LoopTop(1)) == sleeping;
    events := RunToCons(looping, LoopTop(1), events, JustUp(d0, dmax));
    var atGate := c.(connected := false, nextId := 2, loops := map[1 := AtGate]);
    assert Apply(atGate, Gate(1)) == looping;
    events := RunToCons(atGate, Gate(1), events, JustUp(d0, dmax));
    assert Apply(c, SendFails) == atGate;
    events := RunToCons(c, SendFails, events, JustUp(d0, dmax));
    assert events == [SendFails, Gate(1), LoopTop(1), Wake(1), DialSucceeds(1)];
  }

  /** Turned away at the gate, while its owner finishes. */
  function TurnedAway(d0: int, dmax: int): Client {
    JustUp(d0, dmax).(connected := false, nextId := 3, receivers := 1,
                      loops := map[1 := StoppingTimer, 2 := AtGate])
  }

  lemma OwnerFinishes(d0: int, dmax: int)
    ensures RunTo(TurnedAway(d0, dmax).(loops := map[1 := StoppingTimer]),
                  [StopTimer(1), ArmTimer(1), Leave(1)],
                  Connected(d0, dmax, false).(connected := false, nextId := 3))
  {
    hide RunTo;
    var stopping := TurnedAway(d0, dmax).(loops := map[1 := StoppingTimer]);
    var end := Connected(d0, dmax, false).(connected := false, nextId := 3);
    var leaving := stopping.(loops := map[1 := Leaving]);
    RunToStep(leaving, Leave(1), end);
    var arming := stopping.(loops := map[1 := ArmingTimer]);
    assert Apply(arming, ArmTimer(1)) == leaving;
    var events := RunToCons(arming, ArmTimer(1), [Leave(1)], end);
    assert Apply(stopping, StopTimer(1)) == arming;
    events := RunToCons(stopping, StopTimer(1), events, end);
    assert events == [StopTimer(1), ArmTimer(1), Leave(1)];
  }

  lemma DownForGood(d0: int, dmax: int)
    ensures RunTo(JustUp(d0, dmax), [ReceiveFails, Gate(2), StopTimer(1), ArmTimer(1), Leave(1)],
                  Connected(d0, dmax, false).(connected := false, nextId := 3))
  {
    hide RunTo;
    var c, turned := JustUp(d0, dmax), TurnedAway(d0, dmax);
    var end := Connected(d0, dmax, false).(connected := false, nextId := 3);
    OwnerFinishes(d0, dmax);
    assert Apply(turned, Gate(2)) == turned.(loops := map[1 := StoppingTimer]);
    var events := RunToCons(turned, Gate(2), [StopTimer(1), ArmTimer(1), Leave(1)], end);
    assert Apply(c, ReceiveFails) == turned;
    events := RunToCons(c, ReceiveFails, events, end);
    assert events == [ReceiveFails, Gate(2), StopTimer(1), ArmTimer(1), Leave(1)];
  }

  predicate RunTo(c: Client, events: seq<Event>, d: Client) {
    Runs(c, events) && After(c, events) == d
  }

  lemma RunToRuns(c: Client, events: seq<Event>, d: Client)
    requires RunTo(c, events, d)
    ensures Runs(c, events) && After(c, events) == d
  {
  }

  lemma RunToStep(c: Client, e: Event, d: Client)
    requires Enabled(c, e) && Apply(c, e) == d
    ensures RunTo(c, [e], d)
  {
    hide Enabled, Apply;
    assert [e][1..] == [];
    assert Runs(Apply(c, e), []) && After(Apply(c, e), []) == d;
  }

  lemma RunToCons(c: Client, e: Event, events: seq<Event>, d: Client) returns (all: seq<Event>)
    requires Enabled(c, e) && RunTo(Apply(c, e), events, d)
    ensures all == [e] + events && RunTo(c, all, d)
  {
    all := [e] + events;
    hide Enabled, Apply;
    assert ([e] + events)[1..] == events;
  }

  lemma {:induction false} RunToAppend(c: Client, xs: seq<Event>, d: Client, ys: seq<Event>, f: Client)
    requires RunTo(c, xs, d) && RunTo(d, ys, f)
    ensures RunTo(c, xs + ys, f)
    decreases |xs|
  {
    hide Enabled, Apply;
    if xs == [] {
      assert xs + ys == ys;
    } else {
      assert (xs + ys)[1..] == xs[1..] + ys;
      RunToAppend(Apply(c, xs[0]), xs[1..], d, ys, f);
    }
  }
}
