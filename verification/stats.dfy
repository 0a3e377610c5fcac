/**
 The per-host reliability record of the monitor (`Stats` in
 monitor/stats.go) and the operations defined on it.

 Each `AddResult` is one atomic step on an immutable record. In the
 program the probe goroutines and the HTTP readers share the record
 without a lock; this model assumes every `addResult` call is applied as a
 single indivisible update.
 */
module HostStats {
  import opened Durations

  /**
   One record per monitored host. Latencies are nanoseconds; `minTime == 0`
   doubles as "no successful probe yet".
   */
  datatype Stats = Stats(
    host: string,
    sent: int,
    received: int,
    minTime: int,
    maxTime: int,
    totalTime: int,
    times: seq<int>,
    up: bool
  )

  /** The result of one probe: whether the connection was made, and how long it took. */
  datatype Outcome = Outcome(success: bool, duration: int)

  /** The zero-valued record `&Stats{Host: host}`. */
  function Zero(host: string): (r: Stats)
    ensures r.host == host && r.sent == 0 && r.received == 0 && !r.up
    ensures r.minTime == 0 && r.maxTime == 0 && r.totalTime == 0 && r.times == []
  {
    Stats(host, 0, 0, 0, 0, 0, [], false)
  }

  /**
   Record one probe outcome. Every call counts as sent and overwrites `up`;
   only a success touches the received count and the latency fields.
   */
  function AddResult(s: Stats, success: bool, duration: int): (r: Stats)
    ensures r.host == s.host
    ensures r.sent == s.sent + 1
    ensures r.up == success
    ensures r.received == s.received + (if success then 1 else 0)
    ensures !success ==>
      && r.minTime == s.minTime && r.maxTime == s.maxTime
      && r.totalTime == s.totalTime && r.times == s.times
    ensures !success ==> GetAverage(r) == GetAverage(s)
    ensures success ==> r.totalTime == s.totalTime + duration && r.times == s.times + [duration]
    // the maximum only grows, and it covers the new duration
    ensures success ==> r.maxTime >= s.maxTime && r.maxTime >= duration
    ensures success ==> r.maxTime == s.maxTime || r.maxTime == duration
    // a zero minimum is "unset" and is replaced; otherwise the smaller one wins
    ensures success && s.minTime == 0 ==> r.minTime == duration
    ensures success && s.minTime != 0 ==>
      r.minTime <= s.minTime && r.minTime <= duration && (r.minTime == s.minTime || r.minTime == duration)
  {
    var s1 := s.(sent := s.sent + 1, up := success);
    if !success then s1
    else
      var minTime := if s.minTime == 0 || duration < s.minTime then duration else s.minTime;
      var maxTime := if duration > s.maxTime then duration else s.maxTime;
      s1.(received := s.received + 1,
          totalTime := s.totalTime + duration,
          times := s.times + [duration],
          minTime := minTime,
          maxTime := maxTime)
  }

  /**
   `GetAverage`: the mean successful latency, truncated like Go's integer
   division, or 0 when nothing was received.
   */
  function GetAverage(s: Stats): (avg: int)
    ensures s.received == 0 ==> avg == 0
    ensures s.received > 0 && s.totalTime >= 0 ==>
      avg >= 0 && avg * s.received <= s.totalTime < (avg + 1) * s.received
  {
    if s.received == 0 then 0 else Quot(s.totalTime, s.received)
  }

  /**
   `GetPacketLoss`: the percentage of sent probes that were not received,
   as an exact rational (the program computes it in `float64`), or 0 when
   nothing was sent.
   */
  function GetPacketLoss(s: Stats): (loss: real)
    ensures s.sent == 0 ==> loss == 0.0
    ensures s.sent != 0 ==> loss * s.sent as real == (s.sent - s.received) as real * 100.0
    ensures 0 <= s.received <= s.sent ==> 0.0 <= loss <= 100.0
    ensures 0 < s.sent == s.received ==> loss == 0.0
    ensures 0 == s.received < s.sent ==> loss == 100.0
  {
    if s.sent == 0 then 0.0
    else (s.sent - s.received) as real / s.sent as real * 100.0
  }
}
