# TCP reachability monitor: per-host reliability record

A Dafny model of the statistics core of a small Go service. The service
probes a set of hosts with TCP connects and keeps one reliability record per
host. That record holds the probes sent and received, the last outcome (`Up`),
the minimum and maximum latency, the total latency and the list of
successful latencies. The service serves the records as JSON on `/stats` and
answers `/health` with a fixed `up`.

The model covers:

- the monitor's `Stats` record, its `addResult` step and the derived
  average and packet loss (`HostStats`);
- what a record holds after any history of outcomes (`StatsHistory`);
- the older `PingStats` copy of the stand-alone pinger, and a proof that it
  evolves exactly like `Stats` on every shared field (`PingSample`);
- the `/stats` projection of the host-to-record map onto JSON rows, and
  `/health` (`Serve`);
- the settings override, the initial map, the dial-to-`addResult` mapping,
  and probes landing on the shared map (`Monitor`);
- `strconv.Itoa` with a reference parser (`Strconv`);
- nanosecond arithmetic, including Go's truncating division and
  `Duration.Milliseconds` (`Durations`);
- the concrete cases of the stats tests (`Scenarios`).

Durations are `int` nanoseconds. `AddResult` accepts any duration, as the
Go code does. The invariants assume non-negative durations, which is what
`time.Since` delivers. Packet loss is an exact `real`.

**Atomicity assumption.** The program takes no lock. Probe goroutines write
the same `*Stats` that the HTTP handler reads. The model treats every
`addResult` as one indivisible step on the map (`Monitor.ApplyProbe`).
Everything proved about readers holds only under that assumption.

Two behaviours of the code are worth knowing when reading the model:

- `MinTime == 0` doubles as "no success yet", so a success that took 0 ns is
  forgotten by the next success (`StatsHistory.ZeroLatencyUnsetsMin`);
- the config file is used only when `len(configFile) > 1`. Go's `len` counts
  UTF-8 bytes, so a one-character ASCII path is ignored
  (`Monitor.OverrideGuard`).

## Model

| member | source | states |
|---|---|---|
| Durations.Quot | monitor/stats.go:40 | Go's integer division truncates toward zero: the magnitude of the quotient times the divisor is at most the dividend, and within one divisor of it. The sign follows the operands. It equals Dafny's `/` on non-negative operands. |
| Durations.Milliseconds | monitor/serve.go:41 | `Duration.Milliseconds()` is the whole number of milliseconds, truncated toward zero, for both signs. |
| Durations.MillisecondsMonotonic | monitor/serve.go:41-42 | Truncating to milliseconds never reverses the order of two durations, so `minTime <= maxTime` survives the conversion. |
| HostStats.Zero | monitor/monitor.go:38 | `&Stats{Host: host}` has the given host, zero counters, `Up == false`, zero latencies and no recorded times. |
| HostStats.AddResult | monitor/stats.go:19-34 | Every call adds 1 to `Sent`, sets `Up` to its outcome and keeps `Host`. `Received` grows by 1 exactly on success. A failure leaves the received count, min, max, total, times and average untouched. A success appends its duration and adds it to the total. The maximum only grows and covers the new duration. A zero minimum counts as unset and is replaced; otherwise the smaller value wins. |
| HostStats.GetAverage | monitor/stats.go:36-41 | 0 when nothing was received. Otherwise the truncated quotient `totalTime / Received`: with a non-negative total, `avg * Received <= totalTime < (avg + 1) * Received`. |
| HostStats.GetPacketLoss | monitor/stats.go:43-48 | 0 when nothing was sent. Otherwise `loss * Sent == (Sent - Received) * 100`. It lies in [0, 100] whenever `0 <= Received <= Sent`. It is 0 when everything was received and 100 when nothing was. |
| StatsHistory.ZeroValid | monitor/monitor.go:38 | The zero record satisfies the record invariant. |
| StatsHistory.AddResultPreservesValid | monitor/stats.go:19-34 | One `addResult` with a non-negative duration keeps the invariant. The invariant: `0 <= Received <= Sent`, `len(times) == Received`, `totalTime` is the sum of `times`, and `0 <= MinTime <= MaxTime`. MaxTime is the largest recorded time and MinTime one of them; both are 0 with no success. With all times positive, MinTime is below every one. |
| StatsHistory.ReplayAccumulates | monitor/stats.go:19-34 | For any history and any durations: `Sent` grows by the history's length. `Received` grows by the number of successes. `times` gets exactly the successful durations appended in call order, and the total grows by their sum. `Up` is the last outcome (last write wins). |
| StatsHistory.FailuresKeepLatencies | monitor/stats.go:22-33 | A history made only of failures changes none of `Received`, `MinTime`, `MaxTime`, `totalTime` or `times`. |
| StatsHistory.ReplayPreservesValid | monitor/stats.go:19-34 | Any history of non-negative outcomes keeps the record invariant. |
| StatsHistory.ReplayFromZero | monitor/stats.go:19-34 | From the zero record, after any non-negative history: `Received <= Sent == len(history)`, `times` are the successful durations in call order and `totalTime` is their sum, and `0 <= MinTime <= MaxTime`. `MaxTime` is the largest success. `MinTime` is always one of the successes, and the smallest when all successes took positive time. Both are 0 when there was no success. `Up` is the last outcome. |
| StatsHistory.AverageOfValid | monitor/stats.go:36-41 | For a record in the invariant, the average is the truncated mean of the recorded latencies, or 0 with none. |
| StatsHistory.AverageIsTruncatedMean | monitor/stats.go:36-41 | After any non-negative history from the zero record, the average is the truncated arithmetic mean of the successful durations, or 0 with none. |
| StatsHistory.PacketLossOfHistory | monitor/stats.go:43-48 | After any history from the zero record, packet loss lies in [0, 100]. It is 0 when every probe succeeded and 100 when every probe failed. |
| StatsHistory.ZeroLatencyUnsetsMin | monitor/stats.go:27-29 | A success of 0 ns sets `MinTime` to 0, the unset marker. The next success then overwrites `MinTime` with its own duration, however long. |
| StatsHistory.OverlappingProbesCommute | monitor/stats.go:19-34 | If two probes of one host both took positive time, the order in which their results land does not change the counters, total, min, max or multiset of times. Only `Up` and the order of `times` depend on which landed last. |
| PingSample.AddResult | sample.go:22-36 | `sent` grows by 1 on every call and `received` by 1 exactly on success. A failure leaves min, max, total and times untouched. A success appends the duration to `times` and adds it to the total. Min and max follow the same 0-as-unset rule as the monitor. |
| PingSample.GetAverage | sample.go:38-43 | 0 when nothing was received. Otherwise the truncated quotient of total by received. |
| PingSample.GetPacketLoss | sample.go:63-68 | 0 when nothing was sent. Otherwise `loss * sent == (sent - received) * 100`. It lies in [0, 100] when `0 <= received <= sent`. |
| PingSample.SquaredDeviations | sample.go:53-56 | The accumulated sum of squared deviations is never negative. It is 0 when every latency equals the average. |
| PingSample.GetStdDev | sample.go:45-60 | The guard answers 0 exactly when at most one latency is recorded. Otherwise the result is the square root of a non-negative sample variance, which is 0 when all latencies equal the average. |
| PingSample.StdDevOfEqualLatencies | sample.go:45-60 | With two or more equal latencies, the average is that latency and the variance under the square root is 0. |
| PingSample.AddResultAgrees | sample.go:22-36 | One `addResult` step of `PingStats` equals one step of the monitor's `Stats` on every shared field. |
| PingSample.ReplayAgrees | sample.go:22-36 | For every history, the `PingStats` record equals the shared part of the `Stats` record. `Stats` only adds `Host` and `Up`. |
| PingSample.MetricsAgree | sample.go:38-68 | `getAverage` and `getPacketLoss` agree with the monitor's `GetAverage` and `GetPacketLoss` on the shared fields. |
| PingSample.ReplayFromEmpty | sample.go:22-36 | From `&PingStats{}`, after any non-negative history: `received <= sent`, `times` are the successful durations and `totalTime` is their sum, and `0 <= minTime <= maxTime` with both extremes drawn from `times` (the maximum is the largest; the minimum is the smallest when all successes took positive time). Packet loss lies in [0, 100]. |
| Strconv.NatDigits | monitor/monitor.go:30 | The decimal digits of a natural number: non-empty, digits only, and no leading zero except for `"0"` itself. |
| Strconv.Itoa | monitor/monitor.go:30 | `strconv.Itoa` writes a leading `-` exactly for negative numbers, followed by decimal digits. |
| Strconv.ItoaRoundTrip | monitor/monitor.go:30 | Reading back the decimal rendering of any integer gives that integer. |
| Strconv.ItoaInjective | monitor/monitor.go:30 | Distinct configured ports render to distinct port strings. |
| Serve.ToRow | monitor/serve.go:37-46 | A row copies `Host`, `Up`, `Sent` and `Received` verbatim, and takes `PacketLoss` from `GetPacketLoss`. `MinTime`, `MaxTime` and `AverageResponse` are the nanosecond values (the average from `GetAverage`) truncated to whole milliseconds. |
| Serve.RowsInOrder | monitor/serve.go:36-48 | Taking the records in a given key order gives one row per key, and row i is the row of the i-th key's record. |
| Serve.StatsRows | monitor/serve.go:34-48 | The handler's list has exactly one row per map entry. It goes through the keys in an order that lists every key once, and each row is built from its key's record. An empty map gives the empty list. |
| Serve.SnapshotOrderIrrelevant | monitor/serve.go:36-48 | Any two key orders that each list every key once give the same multiset of rows. Two `/stats` answers with no probe in between differ at most in row order. |
| Serve.RowOfValidRecord | monitor/serve.go:37-46 | A row built from a record in the invariant has `0 <= received <= sent`, packet loss in [0, 100], `0 <= minTime <= maxTime` in milliseconds, and a non-negative average. |
| Serve.Health | monitor/serve.go:56-59 | `/health` answers status 200 with body `up`, whatever the records hold. |
| Monitor.Utf8Len | monitor/monitor.go:26 | Go's `len` of a string, its UTF-8 byte count, is between its character count and four times that. |
| Monitor.EffectiveSettings | monitor/monitor.go:26-32 | A config path longer than one byte makes hosts, interval and port all come from the config. The port string reads back as the config's integer port. A path of at most one byte keeps the command-line settings unchanged. |
| Monitor.OverrideGuard | monitor/monitor.go:26 | In characters, the override applies exactly to paths of two or more characters and to a single non-ASCII character. The empty path and any one-character ASCII path are ignored. |
| Monitor.NoMerge | monitor/monitor.go:26-32 | The settings are either all the command-line ones or all the config's (port via `Itoa`), never a mix. |
| Monitor.InitialStats | monitor/monitor.go:36-39 | The initial map's keys are exactly the configured hosts (repeats collapse, so there are at most as many entries as hosts). Each value is the zero record filed under its own host and satisfies the invariant. |
| Monitor.IsHostUp | monitor/monitor.go:10-21 | A probe is exactly one `addResult` with `success` true iff the dial returned no error, and the measured duration. It adds exactly one to `Sent`. `Up` holds exactly when the dial returned no error. A connection records the measured duration as a success. A dial error leaves every latency field and the received count untouched. |
| Monitor.ApplyProbe | monitor/monitor.go:46 | A completed probe changes only its own host's record, to the `isHostUp` result, and keeps the key set. |
| Monitor.ApplyProbes | monitor/monitor.go:44-49 | Any sequence of completed probes keeps the map's key set. |
| Monitor.HostsIndependent | monitor/monitor.go:44-49 | Probes of other hosts never affect a host. After any interleaving, each record equals its own outcomes replayed in landing order. |
| Monitor.ProbesPreserveValid | monitor/monitor.go:44-49 | With atomic updates, any sequence of probes with non-negative durations keeps every record of the map in the invariant and filed under its own host. |
| Monitor.SnapshotRowsConsistent | monitor/serve.go:36-46 | From the initial map and after any probe history, each `/stats` row names its key's host. It also has `received <= sent`, loss in [0, 100] and `minTime <= maxTime`, so no torn values under the atomicity assumption. |
| Scenarios.SuccessThenFailure | monitor/stats_test.go:8-59 | After a 100 ms success: one sent, one received, up, and min, max, total and times all 100 ms. A 200 ms failure then leaves min and max at 100 ms, marks the host down and keeps one time. |
| Scenarios.MinMaxTracking | monitor/stats_test.go:61-84 | Successes of 150, 50, 300 and 100 ms give a minimum of 50 ms and a maximum of 300 ms. |
| Scenarios.Average | monitor/stats_test.go:86-117 | The average is 0 with nothing received and 200 ms after 100/200/300 ms. A failure leaves it at 200 ms. |
| Scenarios.PacketLoss | monitor/stats_test.go:120-155 | Packet loss is 0 with nothing sent and 0 when all probes succeed. It is 50 after two successes and two failures, and 100 when all probes fail. |
| Scenarios.MixedHistory | monitor/stats.go:19-48 | A mixed history, success 100 ms, failure 200 ms, success 50 ms: sent 3, received 2, up, min 50 ms, max 100 ms, average 75 ms, loss 100/3. |
| Scenarios.NeverReachable | monitor/stats.go:43-48 | A host that never answers, five failures: sent 5, received 0, down, 100% loss, average 0, min and max 0. |
| Scenarios.NoHostsNoRows | monitor/serve.go:34-48 | With no configured host, the initial map is empty and `/stats` lists no row. |

## Left out

- Concurrency: the goroutine per host per round, the fire-and-forget cadence, overlapping rounds and the endless loop (monitor/monitor.go:42-49). Completed probes are modelled as a sequence of atomic steps in landing order. The unsynchronised sharing with the HTTP handler is covered only by the atomicity assumption.
- Network and clocks: `net.DialTimeout`, `time.Now`/`time.Since`, `conn.Close` and `tcpPing` (sample.go:70-82, monitor/monitor.go:11-14). They become the inputs `(success, duration)` or `DialResult`.
- Fixed-width integers: `int` and `time.Duration` are 64-bit in Go. Counters, totals and `MinInt64 / -1` wrap-around are not modelled, since integers here are unbounded.
- HostStats.GetPacketLoss: the result is the exact rational value, not the `float64` the program computes, so rounding (for example of 100/3) is not modelled.
- PingSample.GetPacketLoss: exact rational instead of `float64`, as above.
- PingSample.GetStdDev: returns the variance under the square root instead of `time.Duration(math.Sqrt(variance))`. The variance is computed in exact reals, so float rounding, `math.Sqrt` and the truncation back to a duration are not modelled.
- Serve.StatsRows: Go's map iteration order is unspecified. The model picks some order and returns it alongside the rows, and `Serve.SnapshotOrderIrrelevant` shows that only the order can vary.
- Monitor.EffectiveSettings: `ReadConfig` (monitor/config.go) is TOML decoding and file I/O through a library. The decoded `Config` is an input, and its panics on a missing or malformed file are not modelled.
- HTTP plumbing: `Serve`, `ListenAndServe`, route registration, `renderStats` with its HTML template, JSON encoding and its 500 path (monitor/serve.go:15-18, 50-53, 61-66). The header quirk at monitor/serve.go:32-33 is also out: `WriteHeader` runs before `Content-Type` is set.
- Console output and the entry point: `printSummary` in both files, `sample`'s argument and signal handling, the "Using values from" message and the cobra command (cmd/root.go).
- The 2-second probe timeout (monitor/monitor.go:24) only bounds the dial, which is not modelled, so it does not appear in the model.
