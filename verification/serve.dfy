/**
 The read side of the monitor's HTTP surface (monitor/serve.go): the
 projection of the host-to-record map onto the JSON rows of `/stats`, and
 the fixed answer of `/health`. JSON encoding, routing and the HTML page
 are not modelled.
 */
module Serve {
  import opened Durations
  import opened HostStats
  import StatsHistory

  /** One JSON object of `/stats`; latencies are whole milliseconds. */
  datatype JsonStats = JsonStats(
    host: string,
    up: bool,
    sent: int,
    received: int,
    packetLoss: real,
    minTime: int,
    maxTime: int,
    averageResponse: int
  )

  datatype Response = Response(status: int, body: string)

  /** The row `Stats` builds for one record. */
  function ToRow(s: Stats): (row: JsonStats)
    ensures row.host == s.host && row.up == s.up
    ensures row.sent == s.sent && row.received == s.received
    ensures row.packetLoss == GetPacketLoss(s)
    ensures s.minTime >= 0 ==>
      row.minTime >= 0 && row.minTime * Millisecond <= s.minTime < (row.minTime + 1) * Millisecond
    ensures s.maxTime >= 0 ==>
      row.maxTime >= 0 && row.maxTime * Millisecond <= s.maxTime < (row.maxTime + 1) * Millisecond
    ensures GetAverage(s) >= 0 ==>
      row.averageResponse >= 0
      && row.averageResponse * Millisecond <= GetAverage(s) < (row.averageResponse + 1) * Millisecond
  {
    JsonStats(
      s.host, s.up, s.sent, s.received, GetPacketLoss(s),
      Milliseconds(s.minTime), Milliseconds(s.maxTime), Milliseconds(GetAverage(s)))
  }

  /** The rows for the map's records taken in the key order `order`. */
  function RowsInOrder(m: map<string, Stats>, order: seq<string>): (rows: seq<JsonStats>)
    requires forall i :: 0 <= i < |order| ==> order[i] in m
    ensures |rows| == |order|
    ensures forall i :: 0 <= i < |order| ==> rows[i] == ToRow(m[order[i]])
  {
    if |order| == 0 then []
    else RowsInOrder(m, order[..|order| - 1]) + [ToRow(m[order[|order| - 1]])]
  }

  /** `order` lists every key of `m` exactly once. */
  predicate Enumerates(m: map<string, Stats>, order: seq<string>)
  {
    && (forall i :: 0 <= i < |order| ==> order[i] in m)
    && (forall k :: k in m ==> k in order)
    && (forall i, j :: 0 <= i < j < |order| ==> order[i] != order[j])
  }

  /**
   The body of the `/stats` handler up to encoding: one row per map entry,
   in Go's unspecified map-iteration order, which is returned alongside.
   An empty map gives the empty list (the program starts from a non-nil
   empty slice, so it encodes as `[]`).
   */
  method StatsRows(m: map<string, Stats>) returns (rows: seq<JsonStats>, order: seq<string>)
    ensures Enumerates(m, order)
    ensures |rows| == |order| == |m|
    ensures forall i :: 0 <= i < |rows| ==> order[i] in m && rows[i] == ToRow(m[order[i]])
  {
    rows, order := [], [];
    var rest := m.Keys;
    while rest != {}
      invariant rest <= m.Keys
      invariant |rows| == |order|
      invariant |order| + |rest| == |m|
      invariant forall i :: 0 <= i < |order| ==> order[i] in m && order[i] !in rest
      invariant forall k :: k in m ==> k in rest || k in order
      invariant forall i, j :: 0 <= i < j < |order| ==> order[i] != order[j]
      invariant forall i :: 0 <= i < |rows| ==> rows[i] == ToRow(m[order[i]])
      decreases rest
    {
      var k :| k in rest;
      rows := rows + [ToRow(m[k])];
      order := order + [k];
      rest := rest - {k};
    }
  }

  /** `health`: always 200 with body `up`, whatever the records say. */
  function Health(stats: map<string, Stats>): (r: Response)
    ensures r.status == 200 && r.body == "up"
  {
    Response(200, "up")
  }

  lemma {:induction false} RowsConcat(m: map<string, Stats>, a: seq<string>, b: seq<string>)
    requires forall i :: 0 <= i < |a| ==> a[i] in m
    requires forall i :: 0 <= i < |b| ==> b[i] in m
    ensures RowsInOrder(m, a + b) == RowsInOrder(m, a) + RowsInOrder(m, b)
  {
  }

  lemma MultisetRemoveAt(b: seq<string>, j: int)
    requires 0 <= j < |b|
    ensures multiset(b[..j] + b[j + 1..]) == multiset(b) - multiset{b[j]}
  {
    assert b == b[..j] + [b[j]] + b[j + 1..];
    assert multiset(b) == multiset(b[..j]) + multiset{b[j]} + multiset(b[j + 1..]);
  }

  lemma RowsRemoveAt(m: map<string, Stats>, b: seq<string>, j: int)
    requires forall i :: 0 <= i < |b| ==> b[i] in m
    requires 0 <= j < |b|
    ensures multiset(RowsInOrder(m, b))
      == multiset(RowsInOrder(m, b[..j] + b[j + 1..])) + multiset{ToRow(m[b[j]])}
  {
    var l, r := b[..j], b[j + 1..];
    assert b == l + [b[j]] + r;
    var rl, rr, row := RowsInOrder(m, l), RowsInOrder(m, r), ToRow(m[b[j]]);
    RowsConcat(m, l + [b[j]], r);
    RowsConcat(m, l, [b[j]]);
    RowsConcat(m, l, r);
    assert RowsInOrder(m, [b[j]]) == [row];
    assert RowsInOrder(m, b) == rl + [row] + rr;
    MultisetMiddle(rl, row, rr);
  }

  lemma MultisetMiddle<T>(l: seq<T>, x: T, r: seq<T>)
    ensures multiset(l + [x] + r) == multiset(l + r) + multiset{x}
  {
  }

  lemma {:induction false} RowsPermute(m: map<string, Stats>, a: seq<string>, b: seq<string>)
    requires forall i :: 0 <= i < |a| ==> a[i] in m
    requires forall i :: 0 <= i < |b| ==> b[i] in m
    requires multiset(a) == multiset(b)
    ensures multiset(RowsInOrder(m, a)) == multiset(RowsInOrder(m, b))
    decreases |a|
  {
    if |a| > 0 {
      var last := |a| - 1;
      var x := a[last];
      assert x in multiset(b);
      var j :| 0 <= j < |b| && b[j] == x;
      MultisetRemoveAt(a, last);
      MultisetRemoveAt(b, j);
      assert a[..last] + a[last + 1..] == a[..last];
      RowsPermute(m, a[..last], b[..j] + b[j + 1..]);
      RowsRemoveAt(m, a, last);
      RowsRemoveAt(m, b, j);
    }
  }

  lemma {:induction false} DistinctMultiset(order: seq<string>)
    requires forall i, j :: 0 <= i < j < |order| ==> order[i] != order[j]
    ensures forall k :: multiset(order)[k] == if k in order then 1 else 0
  {
    if |order| > 0 {
      var init := order[..|order| - 1];
      DistinctMultiset(init);
      assert order == init + [order[|order| - 1]];
    }
  }

  /**
   Two `/stats` answers for the same map (no probe in between) hold the
   same rows: only their order, Go's map-iteration order, may differ.
   */
  lemma SnapshotOrderIrrelevant(m: map<string, Stats>, o1: seq<string>, o2: seq<string>)
    requires Enumerates(m, o1) && Enumerates(m, o2)
    ensures multiset(RowsInOrder(m, o1)) == multiset(RowsInOrder(m, o2))
  {
    DistinctMultiset(o1);
    DistinctMultiset(o2);
    assert multiset(o1) == multiset(o2);
    RowsPermute(m, o1, o2);
  }

  /**
   Under the atomic-update assumption, every row built from a valid record
   is internally consistent: `received <= sent`, loss within [0, 100], and
   millisecond extremes still ordered.
   */
  lemma RowOfValidRecord(s: Stats)
    requires StatsHistory.Valid(s)
    ensures var row := ToRow(s);
      && 0 <= row.received <= row.sent
      && 0.0 <= row.packetLoss <= 100.0
      && 0 <= row.minTime <= row.maxTime
      && row.averageResponse >= 0
  {
    MillisecondsMonotonic(s.minTime, s.maxTime);
    StatsHistory.AverageOfValid(s, s.times);
  }
}
