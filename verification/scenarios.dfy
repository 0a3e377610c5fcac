/**
 The concrete cases of monitor/stats_test.go, plus a mixed
 success/failure history, a host that never answers and a monitor with no
 configured host, stated about the model.
 */
module Scenarios {
  import opened Durations
  import opened HostStats
  import Serve
  import Monitor

  const Host: string := "example.com"

  /** A success then a failure: counts, `up` and latencies as `TestAddResult` expects. */
  lemma SuccessThenFailure()
    ensures var s1 := AddResult(Zero(Host), true, 100 * Millisecond);
      && s1.sent == 1 && s1.received == 1 && s1.up
      && s1.minTime == 100 * Millisecond && s1.maxTime == 100 * Millisecond
      && s1.totalTime == 100 * Millisecond && s1.times == [100 * Millisecond]
    ensures var s2 := AddResult(AddResult(Zero(Host), true, 100 * Millisecond), false, 200 * Millisecond);
      && s2.sent == 2 && s2.received == 1 && !s2.up
      && s2.minTime == 100 * Millisecond && s2.maxTime == 100 * Millisecond && |s2.times| == 1
  {
  }

  /** `TestAddResult_MinMaxTracking`: 150, 50, 300, 100 ms give min 50 ms and max 300 ms. */
  lemma MinMaxTracking()
    ensures var s := AddResult(AddResult(AddResult(AddResult(Zero(Host),
      true, 150 * Millisecond), true, 50 * Millisecond), true, 300 * Millisecond), true, 100 * Millisecond);
      s.minTime == 50 * Millisecond && s.maxTime == 300 * Millisecond
  {
  }

  /** `TestGetAverage`: 0 with nothing received, 200 ms for 100/200/300 ms, unchanged by a failure. */
  lemma Average()
    ensures GetAverage(Zero(Host)) == 0
    ensures var s := AddResult(AddResult(AddResult(Zero(Host),
      true, 100 * Millisecond), true, 200 * Millisecond), true, 300 * Millisecond);
      && GetAverage(s) == 200 * Millisecond
      && GetAverage(AddResult(s, false, 1000 * Millisecond)) == 200 * Millisecond
  {
  }

  /** `TestGetPacketLoss`: 0 with nothing sent, 0 when all succeed, 50 after two failures, 100 when all fail. */
  lemma PacketLoss()
    ensures GetPacketLoss(Zero(Host)) == 0.0
    ensures var s := AddResult(AddResult(Zero(Host), true, 100 * Millisecond), true, 200 * Millisecond);
      && GetPacketLoss(s) == 0.0
      && GetPacketLoss(AddResult(AddResult(s, false, 100 * Millisecond), false, 100 * Millisecond)) == 50.0
    ensures GetPacketLoss(AddResult(AddResult(Zero(Host), false, 100 * Millisecond), false, 200 * Millisecond)) == 100.0
  {
  }

  /** A mixed history: success 100 ms, failure 200 ms, success 50 ms. */
  lemma MixedHistory()
    ensures var s := AddResult(AddResult(AddResult(Zero(Host),
      true, 100 * Millisecond), false, 200 * Millisecond), true, 50 * Millisecond);
      && s.sent == 3 && s.received == 2 && s.up
      && s.minTime == 50 * Millisecond && s.maxTime == 100 * Millisecond
      && GetAverage(s) == 75 * Millisecond
      && GetPacketLoss(s) == 100.0 / 3.0
  {
  }

  /** A host that never answers: five failures give 100% loss and zero latencies. */
  lemma NeverReachable()
    ensures var s := AddResult(AddResult(AddResult(AddResult(AddResult(Zero(Host),
      false, Second), false, Second), false, Second), false, Second), false, Second);
      && s.sent == 5 && s.received == 0 && !s.up
      && GetPacketLoss(s) == 100.0 && GetAverage(s) == 0
      && s.minTime == 0 && s.maxTime == 0
  {
  }

  /** With no configured host the initial map is empty and `/stats` answers the empty list. */
  method NoHostsNoRows() returns (rows: seq<Serve.JsonStats>)
    ensures rows == []
  {
    var initial := Monitor.InitialStats([]);
    var order;
    rows, order := Serve.StatsRows(initial);
  }
}
