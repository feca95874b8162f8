/** Detection events as the gateway receives them. Only the picosecond timestamp is interpreted;
    the other fields are carried along. */
module Events {
  import opened Samples

  datatype TDCEvent = TDCEvent(
    rpiTimestampUs: nat,
    channel: nat,
    tdcTimestampPs: bv64,
    deltaPs: Option<int>,
    flags: Option<nat>)

  function Timestamps(events: seq<TDCEvent>): (ts: seq<bv64>)
    ensures |ts| == |events|
  {
    seq(|events|, i requires 0 <= i < |events| => events[i].tdcTimestampPs)
  }
}
