/** The sender behind the collector: every batch goes to the local pool and, when a client is
    attached, is mirrored to the cloud event by event. */
module Forwarder {
  import opened Samples
  import opened Events
  import opened Whitening
  import opened Words
  import opened Pool

  datatype ProtoEvent = ProtoEvent(rpiTimestampUs: nat, tdcTimestampPs: bv64, channel: nat, whitened: seq<byte>)

  datatype CloudBatch = CloudBatch(events: seq<ProtoEvent>, number: nat)

  lemma SerialisedSingle(t: bv64)
    ensures Serialised([t]) == LittleEndian(t)
  {
    hide LittleEndian;
    assert [t][..0] == [];
    assert Serialised([]) == [];
  }

  lemma SingleConditioning(event: TDCEvent, sha256: Hash)
    ensures Conditioned(LittleEndian(event.tdcTimestampPs), sha256) == Conditioning([event], sha256)
  {
    hide LittleEndian, Serialised, Conditioned;
    SerialisedSingle(event.tdcTimestampPs);
    assert Timestamps([event]) == [event.tdcTimestampPs];
  }

  /** The canonical form of one event, through the same pipeline as a batch. */
  function WhitenedEvent(event: TDCEvent, sha256: Hash): (w: seq<byte>)
    ensures |w| == 32
    ensures forall raw, fold :: EncodesEvents(raw, [event]) && FoldOf(raw, fold) ==> w == sha256(fold)
  {
    SingleConditioning(event, sha256);
    ConditioningHashesFold([event], sha256);
    Conditioned(LittleEndian(event.tdcTimestampPs), sha256)
  }

  function ToProto(event: TDCEvent, sha256: Hash): ProtoEvent {
    ProtoEvent(event.rpiTimestampUs, event.tdcTimestampPs, event.channel, WhitenedEvent(event, sha256))
  }

  /** proto carries the fields of the event, and the digest of the XOR fold of its encoded timestamp. */
  ghost predicate Mirrors(proto: ProtoEvent, event: TDCEvent, sha256: Hash) {
    && proto.rpiTimestampUs == event.rpiTimestampUs
    && proto.tdcTimestampPs == event.tdcTimestampPs
    && proto.channel == event.channel
    && forall raw, fold :: EncodesEvents(raw, [event]) && FoldOf(raw, fold) ==> proto.whitened == sha256(fold)
  }

  ghost predicate AllMirror(protos: seq<ProtoEvent>, events: seq<TDCEvent>, sha256: Hash) {
    |protos| == |events| && forall i :: 0 <= i < |events| ==> Mirrors(protos[i], events[i], sha256)
  }

  lemma ToProtosMirror(events: seq<TDCEvent>, sha256: Hash)
    ensures AllMirror(ToProtos(events, sha256), events, sha256)
  {
    hide WhitenedEvent, EncodesEvents, FoldOf;
    forall i | 0 <= i < |events|
      ensures Mirrors(ToProtos(events, sha256)[i], events[i], sha256)
    {
      ToProtoMirrors(events[i], sha256);
    }
  }

  lemma ToProtoMirrors(event: TDCEvent, sha256: Hash)
    ensures Mirrors(ToProto(event, sha256), event, sha256)
  {
    SingleConditioning(event, sha256);
    ConditioningHashesFold([event], sha256);
    hide LittleEndian, EncodesEvents, FoldOf, Conditioning, Conditioned;
  }

  function ToProtos(events: seq<TDCEvent>, sha256: Hash): (p: seq<ProtoEvent>)
    ensures |p| == |events|
  {
    seq(|events|, i requires 0 <= i < |events| => ToProto(events[i], sha256))
  }

  /** Single events are whitened from equal stage-one bytes exactly when their timestamps differ by one
      byte repeated eight times. */
  lemma WhitenedEventKernel(a: TDCEvent, b: TDCEvent, sha256: Hash)
    ensures Folded(LittleEndian(a.tdcTimestampPs)) == Folded(LittleEndian(b.tdcTimestampPs)) <==>
            exists c: byte :: ShiftedBy([a.tdcTimestampPs], [b.tdcTimestampPs], c)
  {
    hide LittleEndian, ShiftedBy, Folded;
    SerialisedSingle(a.tdcTimestampPs);
    SerialisedSingle(b.tdcTimestampPs);
    StageOneKernel([a.tdcTimestampPs], [b.tdcTimestampPs]);
  }

  class CloudAwareForwarder {
    const pool: WhitenedPool
    var attached: bool
    var cloud: seq<CloudBatch>  // what the cloud has accepted

    ghost predicate Valid()
      reads this, pool, pool.rawEvents, pool.whitened
    {
      pool.Valid() && this as object !in pool.Repr()
    }

    constructor (pool: WhitenedPool)
      requires pool.Valid()
      ensures Valid() && this.pool == pool && !attached && cloud == []
    {
      this.pool := pool;
      attached, cloud := false, [];
    }

    method SetClient(present: bool)
      modifies this`attached
      ensures attached == present
    {
      attached := present;
    }

    /** Detaches whatever client is there. */
    method Close() returns (wasAttached: bool)
      modifies this`attached
      ensures wasAttached == old(attached) && !attached
    {
      wasAttached := attached;
      attached := false;
    }

    /** accepted is what the client's stream does with the batch, if there is a client. The pool gets
        the batch in any case; an error is reported exactly when a client failed to send it. */
    method SendBatch(events: seq<TDCEvent>, number: nat, accepted: bool) returns (ok: bool)
      requires Valid()
      modifies this`cloud, pool.Repr()
      ensures Valid() && pool.State() == AfterAdd(old(pool.State()), events, pool.sha256)
      ensures ok == (!attached || accepted)
      ensures cloud == old(cloud) +
              if attached && accepted then [CloudBatch(ToProtos(events, pool.sha256), number)] else []
      ensures attached && accepted ==>
                AllMirror(cloud[|cloud| - 1].events, events, pool.sha256) && cloud[|cloud| - 1].number == number
    {
      pool.AddBatch(events);
      if !attached {
        return true;
      }
      var protos := Convert(events, pool.sha256);
      if !accepted {
        return false;
      }
      cloud := cloud + [CloudBatch(protos, number)];
      return true;
    }
  }

  method Convert(events: seq<TDCEvent>, sha256: Hash) returns (protos: seq<ProtoEvent>)
    ensures protos == ToProtos(events, sha256)
    ensures AllMirror(protos, events, sha256)
  {
    hide WhitenedEvent, AllMirror;
    ToProtosMirror(events, sha256);
    protos := [];
    for i := 0 to |events|
      invariant protos == ToProtos(events[..i], sha256)
    {
      var canonical := LittleEndian(events[i].tdcTimestampPs);
      var w := DualStageWhitening(canonical, sha256);
      WhitenedAs(events[i], sha256, w);
      protos := protos + [ProtoEvent(events[i].rpiTimestampUs, events[i].tdcTimestampPs, events[i].channel, w)];
    }
    assert events[..|events|] == events;
  }

  lemma WhitenedAs(event: TDCEvent, sha256: Hash, w: seq<byte>)
    requires w == Conditioned(LittleEndian(event.tdcTimestampPs), sha256)
    ensures w == WhitenedEvent(event, sha256)
  {
  }
}
