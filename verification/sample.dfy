/**
 The stand-alone single-host pinger of sample.go: its `PingStats` record
 is an earlier copy of the monitor's `Stats` without `Host` and `Up`.
 This module models it on its own terms and then proves that both records
 evolve identically on every field they share.
 */
module PingSample {
  import opened Durations
  import HostStats
  import StatsHistory

  datatype PingStats = PingStats(
    sent: int,
    received: int,
    minTime: int,
    maxTime: int,
    totalTime: int,
    times: seq<int>
  )

  /** `&PingStats{}`. */
  const Empty: PingStats := PingStats(0, 0, 0, 0, 0, [])

  /** `addResult` of sample.go: same counting and 0-as-unset minimum as the monitor. */
  function AddResult(p: PingStats, success: bool, duration: int): (r: PingStats)
    ensures r.sent == p.sent + 1
    ensures r.received == p.received + (if success then 1 else 0)
    ensures !success ==>
      && r.minTime == p.minTime && r.maxTime == p.maxTime
      && r.totalTime == p.totalTime && r.times == p.times
    ensures success ==> r.totalTime == p.totalTime + duration && r.times == p.times + [duration]
    ensures success ==> r.maxTime >= p.maxTime && r.maxTime >= duration
    ensures success ==> r.maxTime == p.maxTime || r.maxTime == duration
    ensures success && p.minTime == 0 ==> r.minTime == duration
    ensures success && p.minTime != 0 ==>
      r.minTime <= p.minTime && r.minTime <= duration && (r.minTime == p.minTime || r.minTime == duration)
  {
    var p1 := p.(sent := p.sent + 1);
    if !success then p1
    else
      p1.(received := p.received + 1,
          totalTime := p.totalTime + duration,
          times := p.times + [duration],
          minTime := if p.minTime == 0 || duration < p.minTime then duration else p.minTime,
          maxTime := if duration > p.maxTime then duration else p.maxTime)
  }

  /** `getAverage`: truncated mean latency, or 0 when nothing was received. */
  function GetAverage(p: PingStats): (avg: int)
    ensures p.received == 0 ==> avg == 0
    ensures p.received > 0 && p.totalTime >= 0 ==>
      avg >= 0 && avg * p.received <= p.totalTime < (avg + 1) * p.received
  {
    if p.received == 0 then 0 else Quot(p.totalTime, p.received)
  }

  /** `getPacketLoss`, as an exact rational. */
  function GetPacketLoss(p: PingStats): (loss: real)
    ensures p.sent == 0 ==> loss == 0.0
    ensures p.sent != 0 ==> loss * p.sent as real == (p.sent - p.received) as real * 100.0
    ensures 0 <= p.received <= p.sent ==> 0.0 <= loss <= 100.0
  {
    if p.sent == 0 then 0.0
    else (p.sent - p.received) as real / p.sent as real * 100.0
  }

  /** Sum of squared deviations of `ts` from `avg`. */
  function SquaredDeviations(ts: seq<int>, avg: int): (sum: real)
    ensures sum >= 0.0
    ensures (forall i :: 0 <= i < |ts| ==> ts[i] == avg) ==> sum == 0.0
  {
    if |ts| == 0 then 0.0
    else
      var diff := (ts[|ts| - 1] - avg) as real;
      SquaredDeviations(ts[..|ts| - 1], avg) + diff * diff
  }

  /**
   What `getStdDev` returns: 0 from its guard when at most one latency was
   recorded, otherwise the square root of the sample variance around the
   (truncated) average. The square root itself is not modelled.
   */
  datatype StdDev = GuardedZero | SqrtOf(variance: real)

  function GetStdDev(p: PingStats): (r: StdDev)
    ensures |p.times| <= 1 <==> r == GuardedZero
    ensures r.SqrtOf? ==> r.variance >= 0.0
    ensures r.SqrtOf? && (forall i :: 0 <= i < |p.times| ==> p.times[i] == GetAverage(p)) ==> r.variance == 0.0
  {
    if |p.times| <= 1 then GuardedZero
    else SqrtOf(SquaredDeviations(p.times, GetAverage(p)) / (|p.times| - 1) as real)
  }

  /** Apply the outcomes in call order, as the endless loop of `sample` does. */
  function Replay(p: PingStats, os: seq<HostStats.Outcome>): PingStats
  {
    if |os| == 0 then p
    else
      var last := os[|os| - 1];
      AddResult(Replay(p, os[..|os| - 1]), last.success, last.duration)
  }

  /** The fields a monitor record shares with a sample record. */
  function Shared(s: HostStats.Stats): (p: PingStats)
    ensures p.sent == s.sent && p.received == s.received && p.times == s.times
    ensures p.minTime == s.minTime && p.maxTime == s.maxTime && p.totalTime == s.totalTime
  {
    PingStats(s.sent, s.received, s.minTime, s.maxTime, s.totalTime, s.times)
  }

  /** One step of either record agrees on every shared field. */
  lemma AddResultAgrees(s: HostStats.Stats, success: bool, duration: int)
    ensures AddResult(Shared(s), success, duration) == Shared(HostStats.AddResult(s, success, duration))
  {
  }

  /**
   For every history, the sample record equals the shared part of the
   monitor record: `Stats` only adds `Host` and `Up`.
   */
  lemma {:induction false} ReplayAgrees(s: HostStats.Stats, os: seq<HostStats.Outcome>)
    ensures Replay(Shared(s), os) == Shared(StatsHistory.Replay(s, os))
  {
    if |os| > 0 {
      var last := os[|os| - 1];
      ReplayAgrees(s, os[..|os| - 1]);
      AddResultAgrees(StatsHistory.Replay(s, os[..|os| - 1]), last.success, last.duration);
    }
  }

  /** The derived metrics of both records agree as well. */
  lemma MetricsAgree(s: HostStats.Stats)
    ensures GetAverage(Shared(s)) == HostStats.GetAverage(s)
    ensures GetPacketLoss(Shared(s)) == HostStats.GetPacketLoss(s)
  {
  }

  /**
   From the empty record, any history of non-negative outcomes leaves
   `received <= sent`, `times` the successful durations with `totalTime`
   their sum, and `minTime <= maxTime` with both drawn from `times`: the
   maximum is the largest, the minimum the smallest when all are positive.
   */
  lemma ReplayFromEmpty(os: seq<HostStats.Outcome>)
    requires StatsHistory.NonNegativeDurations(os)
    ensures var p := Replay(Empty, os);
      && p.sent == |os|
      && 0 <= p.received <= p.sent
      && p.times == StatsHistory.Successes(os)
      && |p.times| == p.received
      && p.totalTime == Sum(p.times)
      && 0 <= p.minTime <= p.maxTime
      && (p.received == 0 ==> p.minTime == 0 && p.maxTime == 0)
      && (p.received > 0 ==> IsMaxOf(p.maxTime, p.times) && p.minTime in p.times)
      && (p.received > 0 && Positive(p.times) ==> IsMinOf(p.minTime, p.times))
      && 0.0 <= GetPacketLoss(p) <= 100.0
  {
    assert Empty == Shared(HostStats.Zero(""));
    ReplayAgrees(HostStats.Zero(""), os);
    StatsHistory.ReplayFromZero("", os);
  }

  lemma {:induction false} SumOfEqual(ts: seq<int>, c: int)
    requires forall i :: 0 <= i < |ts| ==> ts[i] == c
    ensures Sum(ts) == |ts| * c
  {
    if |ts| > 0 {
      SumOfEqual(ts[..|ts| - 1], c);
    }
  }

  lemma {:induction false} MulMonotone(a: int, b: int, n: nat)
    requires a <= b
    ensures a * n <= b * n
  {
    if n > 0 {
      MulMonotone(a, b, n - 1);
      assert a * n == a * (n - 1) + a && b * n == b * (n - 1) + b;
    }
  }

  lemma MulCancel(q: int, c: int, n: nat)
    requires q * n <= c * n < (q + 1) * n
    ensures q == c
  {
    if q < c {
      MulMonotone(q + 1, c, n);
      assert false;
    } else if c < q {
      MulMonotone(c + 1, q, n);
      assert false;
    }
  }

  /**
   A record whose latencies are all equal (at least two of them) has the
   average equal to that latency and no spread: `getStdDev` takes the root
   of a zero variance.
   */
  lemma StdDevOfEqualLatencies(p: PingStats, c: int)
    requires |p.times| >= 2 && c >= 0
    requires forall i :: 0 <= i < |p.times| ==> p.times[i] == c
    requires p.received == |p.times| && p.totalTime == Sum(p.times)
    ensures GetAverage(p) == c
    ensures GetStdDev(p) == SqrtOf(0.0)
  {
    SumOfEqual(p.times, c);
    var n, avg := p.received, GetAverage(p);
    MulCancel(avg, c, n);
  }
}
