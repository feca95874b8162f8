/** The batch collector as an object: one event buffer reused for every batch, batches copied out of
    it into arrays of their own. Each method is a transition of the step machine's data. */
module Collector {
  import opened Samples
  import opened Events
  import opened Slices
  import opened CollectorMachine

  /** A batch on its way: the array it was copied into, and its number. */
  datatype SendRequest = SendRequest(batch: array<TDCEvent>, number: nat)

  ghost function Arrays(r: Option<SendRequest>): set<array<TDCEvent>> {
    if r.Some? then {r.value.batch} else {}
  }

  ghost function QueueArrays(q: seq<SendRequest>): set<array<TDCEvent>> {
    set r | r in q :: r.batch
  }

  ghost function Read(r: SendRequest): Request
    reads r.batch
  {
    Request(r.batch[..], r.number)
  }

  ghost function ReadOption(r: Option<SendRequest>): Option<Request>
    reads Arrays(r)
  {
    if r.Some? then Some(Read(r.value)) else None
  }

  ghost function ReadQueue(q: seq<SendRequest>): (s: seq<Request>)
    reads QueueArrays(q)
    ensures |s| == |q|
    ensures forall i :: 0 <= i < |q| ==> s[i] == Read(q[i])
  {
    seq(|q|, i requires 0 <= i < |q| reads QueueArrays(q) => Read(q[i]))
  }

  class BatchCollector {
    const maxSize: nat
    var events: Slice<TDCEvent>
    var sequence: nat
    var staged: Option<SendRequest>
    var sendQueue: seq<SendRequest>
    var inFlight: Option<SendRequest>
    var pendingSends: int
    ghost var added: seq<TDCEvent>
    ghost var sent: seq<Sent>

    /** The arrays of all batches under way. */
    ghost function Held(): set<array<TDCEvent>>
      reads this
    {
      Arrays(staged) + QueueArrays(sendQueue) + Arrays(inFlight)
    }

    /** The buffer is no batch's array, and it never outgrows maxSize: it is the one allocated at the
        start. */
    ghost predicate Valid()
      reads this, events
    {
      && events.Valid() && events.len < Limit(maxSize)
      && (maxSize >= 1 ==> events.buf.Length == maxSize)
      && events.buf !in Held()
      && sequence < SEQUENCE_RANGE
    }

    ghost function View(): Core
      requires Valid()
      reads this, events, events.buf, Held()
    {
      Core(maxSize, added, events.Contents(), sequence, ReadOption(staged), ReadQueue(sendQueue),
           ReadOption(inFlight), sent, pendingSends)
    }

    constructor (maxSize: nat)
      ensures Valid() && fresh(events) && fresh(events.buf)
      ensures View() == EmptyCore(maxSize)
    {
      this.maxSize := maxSize;
      events := new Slice<TDCEvent>(maxSize);
      sequence, staged, sendQueue, inFlight, pendingSends := 0, None, [], None, 0;
      added, sent := [], [];
    }

    /** Under the lock, so no batch is staged on entry. */
    method Add(event: TDCEvent)
      requires Valid() && staged.None?
      modifies this, events, events.buf
      ensures Valid() && View() == Append(old(View()), event)
      ensures maxSize >= 1 ==> events.buf == old(events.buf)
      ensures events == old(events) && fresh(Held() - old(Held()))
      ensures staged.Some? <==> old(events.len) + 1 >= maxSize
      ensures if staged.Some?
              then staged.value.batch[..] == old(events.Contents()) + [event] && events.Contents() == []
                   && staged.value.batch.Length == Limit(maxSize)
              else events.Contents() == old(events.Contents()) + [event]
    {
      hide Wrapped;
      events.Append([event]);
      added := added + [event];
      if events.len >= maxSize {
        Flush();
      }
    }

    /** The part of flush before the channel send: copy the buffer out and reset it in place. */
    method Flush()
      requires events.Valid() && events.len <= Limit(maxSize) && staged.None? && sequence < SEQUENCE_RANGE
      requires (maxSize >= 1 ==> events.buf.Length == maxSize) && events.buf !in Held()
      modifies this`staged, this`sequence, this`pendingSends, events`len
      ensures events.Valid() && events.Contents() == []
      ensures old(events.len) == 0 ==>
                staged == old(staged) && sequence == old(sequence) && pendingSends == old(pendingSends)
      ensures old(events.len) > 0 ==>
                && staged.Some? && fresh(staged.value.batch)
                && staged.value.batch[..] == old(events.Contents())
                && staged.value.number == sequence == Wrapped(old(sequence) + 1)
                && pendingSends == old(pendingSends) + 1
    {
      if events.len == 0 {
        return;
      }
      var batch := new TDCEvent[events.len];
      forall i | 0 <= i < events.len {
        batch[i] := events.buf[i];
      }
      assert batch[..] == events.Contents();
      sequence := Wrapped(sequence + 1);
      events.Clear();
      if events.buf.Length > maxSize * 2 && batch.Length < maxSize / 4 {
        // the reallocation branch: the capacity never exceeds maxSize
        assert false;
      }
      pendingSends := pendingSends + 1;
      staged := Some(SendRequest(batch, sequence));
    }

    /** What the timer and Close do under the lock. */
    method FlushLocked()
      requires Valid() && staged.None?
      modifies this`staged, this`sequence, this`pendingSends, events`len
      ensures Valid() && View() == Stage(old(View()))
      ensures fresh(Held() - old(Held()))
    {
      Flush();
    }

    /** The channel send: succeeds when there is room. */
    method EnqueueStaged() returns (ok: bool)
      requires Valid() && staged.Some?
      modifies this`staged, this`sendQueue
      ensures Valid() && ok == (|old(View()).queue| < Capacity(maxSize))
      ensures View() == if ok then Enqueue(old(View())) else old(View())
    {
      ok := |sendQueue| < Max(1, maxSize / 2);
      if ok {
        sendQueue, staged := sendQueue + [staged.value], None;
      }
    }

    /** The send loop receives. */
    method TakeNext() returns (job: SendRequest)
      requires Valid() && inFlight.None? && sendQueue != []
      modifies this`sendQueue, this`inFlight
      ensures Valid() && View() == Take(old(View()))
      ensures sendQueue == old(sendQueue)[1..] && inFlight == Some(job) == Some(old(sendQueue)[0])
    {
      job := sendQueue[0];
      sendQueue, inFlight := sendQueue[1..], Some(job);
    }

    /** The sender returned from the batch, with or without an error. */
    method SenderReturned(ok: bool)
      requires Valid() && inFlight.Some?
      modifies this`inFlight, this`pendingSends, this`sent
      ensures Valid() && View() == Return(old(View()), ok)
    {
      sent := sent + [Sent(Read(inFlight.value), ok)];
      inFlight := None;
      pendingSends := pendingSends - 1;
    }

    /** One turn of the send loop: the oldest queued batch goes to the sender and is recorded as sent,
        with an error or without. */
    method SendNext() returns (ok: bool)
      requires Valid() && inFlight.None? && sendQueue != []
      modifies this`sendQueue, this`inFlight, this`pendingSends, this`sent
      ensures Valid() && inFlight.None? && sendQueue == old(sendQueue)[1..]
      ensures sent == old(sent) + [Sent(Read(old(sendQueue)[0]), ok)]
      ensures pendingSends == old(pendingSends) - 1
    {
      var job := TakeNext();
      ok := *;
      SenderReturned(ok);
    }

    /** The send loop over what is queued. */
    method RunSendLoop()
      requires Valid() && inFlight.None?
      modifies this`sendQueue, this`inFlight, this`pendingSends, this`sent
      ensures Valid() && sendQueue == [] && inFlight.None?
      ensures Requests(sent) == Requests(old(sent)) + ReadQueue(old(sendQueue))
      ensures pendingSends == old(pendingSends) - |old(sendQueue)|
    {
      hide Requests;
      ghost var n := 0;
      while sendQueue != []
        invariant Valid() && inFlight.None?
        invariant 0 <= n <= |old(sendQueue)| && sendQueue == old(sendQueue)[n..]
        invariant Requests(sent) == Requests(old(sent)) + ReadQueue(old(sendQueue))[..n]
        invariant pendingSends == old(pendingSends) - n
        decreases |sendQueue|
      {
        ghost var before := sent;
        var ok := SendNext();
        RequestsSnoc(before, Sent(Read(old(sendQueue)[n]), ok));
        n := n + 1;
      }
    }
  }
}
