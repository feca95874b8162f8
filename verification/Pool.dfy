/** The whitened entropy pool: a bounded FIFO of conditioned bytes whose release decision runs
    through the two continuous health tests. */
module Pool {
  import opened Samples
  import opened Events
  import opened HealthTests
  import opened Slices
  import opened Whitening
  import opened Words

  const DEFAULT_MIN_WHITENED_BYTES := 32
  const WHITENED_BUFFER_MULTIPLIER := 4
  const DEFAULT_MAX_RAW_EVENTS := 4096
  const RCT_CUTOFF := 40
  const APT_CUTOFF := 605
  const APT_WINDOW := 4096

  datatype PoolState = PoolState(
    minSize: int,
    maxSize: int,
    raw: seq<TDCEvent>,
    bytes: seq<byte>,
    rct: Rct,
    apt: Apt)

  /** Bounds after the fallbacks: invalid values are replaced, and max is raised to min. */
  function EffectiveBounds(minSize: int, maxSize: int): (b: (int, int))
    ensures 1 <= b.0 <= b.1
    ensures b.0 == if minSize <= 0 then 32 else minSize
    ensures maxSize <= 0 ==> b.1 == 4 * b.0
    ensures maxSize >= 1 ==> b.1 == Max(b.0, maxSize)
  {
    var lo := if minSize <= 0 then DEFAULT_MIN_WHITENED_BYTES else minSize;
    var hi := if maxSize <= 0 then lo * WHITENED_BUFFER_MULTIPLIER else maxSize;
    (lo, Max(lo, hi))
  }

  function Fresh(minSize: int, maxSize: int): PoolState {
    var (lo, hi) := EffectiveBounds(minSize, maxSize);
    PoolState(lo, hi, [], [], RctFresh(RCT_CUTOFF), AptFresh(APT_CUTOFF, APT_WINDOW))
  }

  /** What a batch contributes: its serialised timestamps through the dual-stage pipeline. */
  function Conditioning(events: seq<TDCEvent>, sha256: Hash): (c: seq<byte>)
    ensures |c| == if events == [] then 0 else 32
  {
    Conditioned(Serialised(Timestamps(events)), sha256)
  }

  /** raw holds the picosecond timestamps of the events in order, eight bytes each, least significant
      first. */
  ghost predicate EncodesEvents(raw: seq<byte>, events: seq<TDCEvent>) {
    && |raw| == 8 * |events|
    && forall i: nat, k: nat :: i < |events| && k < 8 ==>
         HoldsByte(raw, i, events[i].tdcTimestampPs, k)
  }

  /** What is hashed: the XOR fold of that encoding, and it is the only such fold. */
  lemma ConditioningHashesFold(events: seq<TDCEvent>, sha256: Hash)
    requires events != []
    ensures exists raw, fold :: EncodesEvents(raw, events) && FoldOf(raw, fold)
    ensures forall raw, fold :: EncodesEvents(raw, events) && FoldOf(raw, fold) ==>
              Conditioning(events, sha256) == sha256(fold)
  {
    hide FoldOf, Serialised;
    var ts := Timestamps(events);
    OneEncoding(ts);
    OneFold(Serialised(ts));
    EncodesAgree(events, Serialised(ts));
    forall raw, fold | EncodesEvents(raw, events) && FoldOf(raw, fold)
      ensures Conditioning(events, sha256) == sha256(fold)
    {
      EncodesAgree(events, raw);
      ConditionedFold(raw, fold, sha256);
    }
  }

  lemma EncodesAgree(events: seq<TDCEvent>, raw: seq<byte>)
    ensures EncodesEvents(raw, events) <==> Encodes(raw, Timestamps(events))
  {
    hide HoldsByte;
    var ts := Timestamps(events);
    assert forall i: nat :: i < |events| ==> ts[i] == events[i].tdcTimestampPs;
  }

  /** The store of after is the end of what before held followed by the digest, as much of it as fits; so
      with the history of 4096 events; nothing else changes. */
  predicate Landed(before: PoolState, after: PoolState, events: seq<TDCEvent>, digest: seq<byte>) {
    && after.minSize == before.minSize && after.maxSize == before.maxSize
    && after.rct == before.rct && after.apt == before.apt
    && IsTail(after.bytes, before.bytes + digest, before.maxSize)
    && IsTail(after.raw, before.raw + events, 4096)
  }

  /** t is s without its oldest elements, as few as keep it within the bound. */
  predicate IsTail<T(==)>(t: seq<T>, s: seq<T>, bound: int) {
    |t| == Min(|s|, bound) && t == s[|s| - |t|..]
  }

  function AfterAdd(p: PoolState, events: seq<TDCEvent>, sha256: Hash): PoolState
    requires p.maxSize >= 0
  {
    if events == [] then p
    else p.(raw := Suffix(p.raw + events, DEFAULT_MAX_RAW_EVENTS),
            bytes := Suffix(p.bytes + Conditioning(events, sha256), p.maxSize))
  }

  /** A batch is stored as the digest of its fold, and drops no more than it must. */
  lemma BatchLands(p: PoolState, events: seq<TDCEvent>, sha256: Hash)
    requires p.maxSize >= 0
    ensures events == [] ==> AfterAdd(p, events, sha256) == p
    ensures events != [] ==>
              forall raw, fold :: EncodesEvents(raw, events) && FoldOf(raw, fold) ==>
                Landed(p, AfterAdd(p, events, sha256), events, sha256(fold))
  {
    hide EncodesEvents, FoldOf, Conditioning;
    if events != [] {
      ConditioningHashesFold(events, sha256);
      assert Landed(p, AfterAdd(p, events, sha256), events, Conditioning(events, sha256));
    }
  }

  datatype Outcome = Released(data: seq<byte>) | Unavailable | RctFailure | AptFailure {
    predicate HealthFailure() { RctFailure? || AptFailure? }
  }

  function Extract(p: PoolState, n: int): (PoolState, Outcome) {
    if n <= 0 || |p.bytes| < p.minSize || |p.bytes| < n then (p, Unavailable)
    else
      var block := p.bytes[..n];
      var (rct, rctOk) := RctBlock(p.rct, block);
      if !rctOk then (p.(rct := RctReset(rct)), RctFailure)
      else
        var (apt, aptOk) := AptBlock(p.apt, block);
        if !aptOk then (p.(rct := rct, apt := AptReset(apt)), AptFailure)
        else (p.(rct := rct, apt := apt, bytes := p.bytes[n..]), Released(block))
  }

  function Available(p: PoolState): (n: int)
    ensures n >= 0 && (n == 0 <==> |p.bytes| <= p.minSize)
    ensures n > 0 ==> n + p.minSize == |p.bytes|
  {
    Max(0, |p.bytes| - p.minSize)
  }

  // ======================= The class =======================

  /** PutUint64 at an offset of a buffer. */
  method PutUint64(a: array<byte>, at: nat, t: bv64)
    requires at + 8 <= a.Length
    modifies a
    ensures a[at..at + 8] == LittleEndian(t)
    ensures forall k: nat :: k < 8 ==> a[at + k] == ((t >> (8 * k)) & 0xFF) as byte
    ensures forall i :: 0 <= i < a.Length && !(at <= i < at + 8) ==> a[i] == old(a[i])
  {
    hide ByteAt;
    for k := 0 to 8
      invariant forall i :: 0 <= i < k ==> a[at + i] == ByteAt(t, i)
      invariant forall i :: 0 <= i < a.Length && !(at <= i < at + k) ==> a[i] == old(a[i])
    {
      a[at + k] := ByteAt(t, k);
    }
    forall k: nat | k < 8
      ensures a[at + k] == ((t >> (8 * k)) & 0xFF) as byte
    {
      LittleEndianAt(t, k);
    }
  }

  class WhitenedPool {
    const sha256: Hash
    var rawEvents: Slice<TDCEvent>
    var whitened: Slice<byte>
    var minPoolSize: int
    var maxPoolSize: int
    var rct: RepetitionCountTest
    var apt: AdaptiveProportionTest

    ghost function Repr(): set<object>
      reads this, rawEvents, whitened
    {
      {this, rawEvents, rawEvents.buf, whitened, whitened.buf, rct, apt}
    }

    ghost predicate Valid()
      reads this, rawEvents, whitened
    {
      && rawEvents.Valid() && whitened.Valid()
      && rawEvents as object != whitened && rawEvents.buf as object != whitened.buf
      && 1 <= minPoolSize <= maxPoolSize
    }

    ghost function State(): PoolState
      requires Valid()
      reads this, rawEvents, rawEvents.buf, whitened, whitened.buf, rct, apt
    {
      PoolState(minPoolSize, maxPoolSize, rawEvents.Contents(), whitened.Contents(), rct.State(), apt.State())
    }

    constructor WithBounds(minSize: int, maxSize: int, sha256: Hash)
      ensures Valid() && fresh(Repr()) && this.sha256 == sha256
      ensures State() == Fresh(minSize, maxSize)
    {
      var lo, hi := minSize, maxSize;
      if lo <= 0 {
        lo := DEFAULT_MIN_WHITENED_BYTES;
      }
      if hi <= 0 {
        hi := lo * WHITENED_BUFFER_MULTIPLIER;
      }
      if hi < lo {
        hi := lo;
      }
      this.sha256 := sha256;
      minPoolSize, maxPoolSize := lo, hi;
      rawEvents := new Slice<TDCEvent>(0);
      whitened := new Slice<byte>(0);
      rct := new RepetitionCountTest(RCT_CUTOFF);
      apt := new AdaptiveProportionTest(APT_CUTOFF, APT_WINDOW);
    }

    method AddBatch(events: seq<TDCEvent>)
      requires Valid()
      modifies Repr()
      ensures Valid() && fresh(Repr() - old(Repr()))
      ensures State() == AfterAdd(old(State()), events, sha256)
      ensures events == [] ==> State() == old(State())
      ensures events != [] ==>
                forall raw, fold :: EncodesEvents(raw, events) && FoldOf(raw, fold) ==>
                  Landed(old(State()), State(), events, sha256(fold))
    {
      hide EncodesEvents, FoldOf, Landed;
      BatchLands(State(), events, sha256);
      if |events| == 0 {
        return;
      }
      var whitenedBytes := Whiten(events, sha256);

      hide Conditioning;
      rawEvents.AppendBounded(events, DEFAULT_MAX_RAW_EVENTS);
      whitened.AppendBounded(whitenedBytes, maxPoolSize);
    }

    method ExtractEntropy(numBytes: int) returns (output: Option<seq<byte>>)
      requires Valid()
      modifies Repr()
      ensures Valid() && fresh(Repr() - old(Repr()))
      ensures State() == Extract(old(State()), numBytes).0
      ensures var outcome := Extract(old(State()), numBytes).1;
              output == if outcome.Released? then Some(outcome.data) else None
    {
      hide Feed, Suffix;
      if numBytes <= 0 {
        return None;
      }
      if whitened.len < minPoolSize {
        return None;
      }
      if whitened.len < numBytes {
        return None;
      }
      var block := whitened.buf[..numBytes];
      assert block == whitened.Contents()[..numBytes];
      var rctOk := rct.TestBlock(block);
      if !rctOk {
        rct.Reset();
        return None;
      }
      var aptOk := apt.TestBlock(block);
      if !aptOk {
        apt.Reset();
        return None;
      }
      var rest := new Slice<byte>(0);
      rest.Append(whitened.buf[numBytes..whitened.len]);
      assert rest.Contents() == whitened.Contents()[numBytes..];
      whitened := rest;
      return Some(block);
    }

    method PoolStatus() returns (raw: nat, stored: nat)
      requires Valid()
      ensures raw == |State().raw| && stored == |State().bytes|
    {
      raw, stored := rawEvents.len, whitened.len;
    }

    method AvailableEntropy() returns (n: int)
      requires Valid()
      ensures n == Available(State())
    {
      if whitened.len <= minPoolSize {
        return 0;
      }
      return whitened.len - minPoolSize;
    }
  }

  /** Serialise the timestamps of a batch into one buffer and condition it. */
  method Whiten(events: seq<TDCEvent>, sha256: Hash) returns (conditioned: seq<byte>)
    ensures conditioned == Conditioning(events, sha256)
    ensures events != [] ==>
              forall raw, fold :: EncodesEvents(raw, events) && FoldOf(raw, fold) ==> conditioned == sha256(fold)
  {
    hide LittleEndian, HoldsByte, EncodesEvents, FoldOf, Conditioned;
    var rawBytes := new byte[|events| * 8];
    for index := 0 to |events|
      invariant rawBytes[..index * 8] == Serialised(Timestamps(events[..index]))
    {
      ghost var before := rawBytes[..index * 8];
      PutUint64(rawBytes, index * 8, events[index].tdcTimestampPs);
      assert rawBytes[..(index + 1) * 8] == before + LittleEndian(events[index].tdcTimestampPs);
      SerialisedSnoc(events, index);
    }
    assert rawBytes[..] == rawBytes[..|events| * 8];
    assert events[..|events|] == events;
    conditioned := DualStageWhitening(rawBytes[..], sha256);
    if events != [] {
      ConditioningHashesFold(events, sha256);
    }
  }

  lemma SerialisedSnoc(events: seq<TDCEvent>, i: nat)
    requires i < |events|
    ensures Serialised(Timestamps(events[..i + 1])) ==
            Serialised(Timestamps(events[..i])) + LittleEndian(events[i].tdcTimestampPs)
  {
    hide LittleEndian;
    var ts := Timestamps(events[..i + 1]);
    assert ts[..i] == Timestamps(events[..i]);
  }
}
