/**
 What a host's record holds after a whole history of probe outcomes,
 applied one `AddResult` at a time in call order starting from the
 zero-valued record the monitor creates at startup.
 */
module StatsHistory {
  import opened Durations
  import opened HostStats

  /** Apply the outcomes to `s` in call order. */
  function Replay(s: Stats, os: seq<Outcome>): Stats
  {
    if |os| == 0 then s
    else
      var last := os[|os| - 1];
      AddResult(Replay(s, os[..|os| - 1]), last.success, last.duration)
  }

  /** The durations of the successful outcomes, in call order. */
  function Successes(os: seq<Outcome>): (ds: seq<int>)
    ensures |ds| <= |os|
  {
    if |os| == 0 then []
    else
      var last := os[|os| - 1];
      Successes(os[..|os| - 1]) + (if last.success then [last.duration] else [])
  }

  /** Every measured duration is at least zero, as `time.Since` guarantees. */
  predicate NonNegativeDurations(os: seq<Outcome>)
  {
    forall i :: 0 <= i < |os| ==> os[i].duration >= 0
  }

  predicate AllSucceeded(os: seq<Outcome>)
  {
    forall i :: 0 <= i < |os| ==> os[i].success
  }

  predicate AllFailed(os: seq<Outcome>)
  {
    forall i :: 0 <= i < |os| ==> !os[i].success
  }

  /**
   The invariant every record reachable from the zero record keeps, when
   durations are non-negative: counters agree with the latency list, the
   total is its sum, and the extremes are drawn from it.
   */
  ghost predicate Valid(s: Stats)
  {
    && 0 <= s.received <= s.sent
    && |s.times| == s.received
    && Sum(s.times) == s.totalTime
    && NonNegative(s.times)
    && 0 <= s.minTime <= s.maxTime
    && (|s.times| == 0 ==> s.minTime == 0 && s.maxTime == 0)
    && (|s.times| > 0 ==> s.minTime in s.times && IsMaxOf(s.maxTime, s.times))
    && (Positive(s.times) ==> forall i :: 0 <= i < |s.times| ==> s.minTime <= s.times[i])
  }

  lemma ZeroValid(host: string)
    ensures Valid(Zero(host))
  {
  }

  /** One atomic `AddResult` with a non-negative duration keeps the invariant. */
  lemma AddResultPreservesValid(s: Stats, success: bool, duration: int)
    requires Valid(s) && duration >= 0
    ensures Valid(AddResult(s, success, duration))
  {
    if success {
      var r := AddResult(s, true, duration);
      var t, d := s.times, duration;
      assert r.times == t + [d];
      SumAppend(t, d);
      forall i | 0 <= i < |t|
        ensures r.times[i] == t[i]
      {
      }
      assert r.times[|t|] == d;
      assert NonNegative(r.times);
      assert r.maxTime in r.times;
      assert r.minTime in r.times;
      assert IsMaxOf(r.maxTime, r.times);
      if Positive(r.times) {
        assert Positive(t);
        if |t| > 0 {
          assert s.minTime in t;
        }
      }
    }
  }

  /**
   Replaying a history adds its length to `sent`, appends exactly the
   successful durations to `times` and their sum to the total, and leaves
   `up` equal to the last outcome. Holds for any durations.
   */
  lemma {:induction false} ReplayAccumulates(s: Stats, os: seq<Outcome>)
    ensures var r := Replay(s, os);
      && r.host == s.host
      && r.sent == s.sent + |os|
      && r.received == s.received + |Successes(os)|
      && r.times == s.times + Successes(os)
      && r.totalTime == s.totalTime + Sum(Successes(os))
      && r.up == (if |os| == 0 then s.up else os[|os| - 1].success)
  {
    if |os| > 0 {
      var init, last := os[..|os| - 1], os[|os| - 1];
      ReplayAccumulates(s, init);
      if last.success {
        SumAppend(Successes(init), last.duration);
        assert s.times + Successes(init) + [last.duration] == s.times + (Successes(init) + [last.duration]);
      } else {
        assert Successes(os) == Successes(init) + [] == Successes(init);
      }
    }
  }

  /** A history of failures changes nothing but `sent` and `up`. */
  lemma {:induction false} FailuresKeepLatencies(s: Stats, os: seq<Outcome>)
    requires AllFailed(os)
    ensures var r := Replay(s, os);
      && r.received == s.received && r.times == s.times && r.totalTime == s.totalTime
      && r.minTime == s.minTime && r.maxTime == s.maxTime
  {
    if |os| > 0 {
      FailuresKeepLatencies(s, os[..|os| - 1]);
    }
  }

  lemma {:induction false} ReplayPreservesValid(s: Stats, os: seq<Outcome>)
    requires Valid(s) && NonNegativeDurations(os)
    ensures Valid(Replay(s, os))
  {
    if |os| > 0 {
      var last := os[|os| - 1];
      ReplayPreservesValid(s, os[..|os| - 1]);
      AddResultPreservesValid(Replay(s, os[..|os| - 1]), last.success, last.duration);
    }
  }

  /**
   The record after any history of non-negative outcomes, starting from
   the zero record: `received <= sent`, `times` is exactly the successful
   durations in call order and `totalTime` their sum, `minTime <= maxTime`,
   `maxTime` is the largest success, `minTime` is one of the successes and,
   when every success took a positive time, the smallest; with no success
   both are 0.
   */
  lemma ReplayFromZero(host: string, os: seq<Outcome>)
    requires NonNegativeDurations(os)
    ensures var r := Replay(Zero(host), os);
      && r.host == host
      && r.sent == |os|
      && 0 <= r.received <= r.sent
      && r.times == Successes(os)
      && |r.times| == r.received
      && r.totalTime == Sum(r.times)
      && 0 <= r.minTime <= r.maxTime
      && (r.received == 0 ==> r.minTime == 0 && r.maxTime == 0)
      && (r.received > 0 ==> IsMaxOf(r.maxTime, r.times) && r.minTime in r.times)
      && (r.received > 0 && Positive(r.times) ==> IsMinOf(r.minTime, r.times))
      && r.up == (|os| > 0 && os[|os| - 1].success)
  {
    ReplayAccumulates(Zero(host), os);
    ReplayPreservesValid(Zero(host), os);
  }

  lemma {:induction false} SuccessesOfAllSucceeded(os: seq<Outcome>)
    requires AllSucceeded(os)
    ensures |Successes(os)| == |os|
  {
    if |os| > 0 {
      SuccessesOfAllSucceeded(os[..|os| - 1]);
    }
  }

  lemma {:induction false} SuccessesOfAllFailed(os: seq<Outcome>)
    requires AllFailed(os)
    ensures Successes(os) == []
  {
    if |os| > 0 {
      SuccessesOfAllFailed(os[..|os| - 1]);
    }
  }

  /**
   For a valid record the average is the mean of the recorded latencies,
   truncated, or 0 when there is none.
   */
  lemma AverageOfValid(s: Stats, ts: seq<int>)
    requires Valid(s) && s.times == ts
    ensures var avg := GetAverage(s);
      && (|ts| == 0 ==> avg == 0)
      && (|ts| > 0 ==> avg >= 0 && avg * |ts| <= Sum(ts) < (avg + 1) * |ts|)
  {
    SumNonNegative(s.times);
  }

  /**
   The average after a history is the mean of the successful durations,
   truncated, or 0 when there was none.
   */
  lemma AverageIsTruncatedMean(host: string, os: seq<Outcome>)
    requires NonNegativeDurations(os)
    ensures var avg, ds := GetAverage(Replay(Zero(host), os)), Successes(os);
      && (|ds| == 0 ==> avg == 0)
      && (|ds| > 0 ==> avg >= 0 && avg * |ds| <= Sum(ds) < (avg + 1) * |ds|)
  {
    ReplayAccumulates(Zero(host), os);
    ReplayPreservesValid(Zero(host), os);
    AverageOfValid(Replay(Zero(host), os), Successes(os));
  }

  /**
   Packet loss after a history lies in [0, 100]; it is 0 when every probe
   succeeded and 100 when every probe failed (and at least one was sent).
   */
  lemma PacketLossOfHistory(host: string, os: seq<Outcome>)
    ensures var loss := GetPacketLoss(Replay(Zero(host), os));
      && 0.0 <= loss <= 100.0
      && (|os| > 0 && AllSucceeded(os) ==> loss == 0.0)
      && (|os| > 0 && AllFailed(os) ==> loss == 100.0)
  {
    ReplayAccumulates(Zero(host), os);
    var r := Replay(Zero(host), os);
    assert r.sent == |os| && r.received == |Successes(os)|;
    assert 0 <= r.received <= r.sent;
    if AllSucceeded(os) {
      SuccessesOfAllSucceeded(os);
    }
    if AllFailed(os) {
      SuccessesOfAllFailed(os);
    }
  }

  /**
   A success that took zero time is indistinguishable from "unset": the
   next success overwrites `minTime` even when it took longer.
   */
  lemma ZeroLatencyUnsetsMin(s: Stats, duration: int)
    requires s.minTime >= 0
    ensures AddResult(s, true, 0).minTime == 0
    ensures AddResult(AddResult(s, true, 0), true, duration).minTime == duration
  {
  }

  /**
   Two probes of one host whose results land in either order (overlapping
   rounds) leave the same counters, total and extremes, provided both took
   a positive time; only `up` (last write wins) and the order of `times`
   depend on which landed last.
   */
  lemma OverlappingProbesCommute(s: Stats, a: Outcome, b: Outcome)
    requires s.minTime >= 0 && a.duration > 0 && b.duration > 0
    ensures var ab := Replay(s, [a, b]);
      var ba := Replay(s, [b, a]);
      && ab.sent == ba.sent && ab.received == ba.received && ab.totalTime == ba.totalTime
      && ab.minTime == ba.minTime && ab.maxTime == ba.maxTime
      && multiset(ab.times) == multiset(ba.times)
      && ab.up == b.success && ba.up == a.success
  {
    assert [a, b][..1] == [a];
    assert [b, a][..1] == [b];
  }
}
