/**
 The pure fragments of monitor/monitor.go: choosing between command-line
 and config-file settings, building the initial host-to-record map, and
 turning one dial attempt into one `addResult` call on that map.

 The endless round loop, the goroutine per probe and the sleeps are not
 modelled. What is modelled instead is any sequence of completed probes,
 each applied to the map as one atomic step; the program itself takes no
 lock, so atomicity of each `addResult` is an assumption of this model.
 */
module Monitor {
  import opened Durations
  import opened HostStats
  import StatsHistory
  import Strconv
  import Serve

  /** The decoded config file (`Config` in monitor/config.go). */
  datatype Config = Config(hosts: seq<string>, port: int, interval: int)

  /** The hosts, probe port and interval in seconds that the monitor runs with. */
  datatype Settings = Settings(hosts: seq<string>, port: string, interval: int)

  /** Number of bytes of the UTF-8 encoding of `s`: Go's `len` on a string. */
  function Utf8Len(s: string): (n: nat)
    ensures |s| <= n <= 4 * |s|
  {
    if |s| == 0 then 0
    else
      var c := s[|s| - 1] as int;
      Utf8Len(s[..|s| - 1]) + (if c < 0x80 then 1 else if c < 0x800 then 2 else if c < 0x1_0000 then 3 else 4)
  }

  /**
   The settings `Monitor` runs with. A config path longer than one byte
   replaces all three of hosts, port and interval by the config's values,
   the port rendered in decimal; otherwise the command-line values stay.
   `config` stands for what `ReadConfig` decodes from that path.
   */
  function EffectiveSettings(cli: Settings, configFile: string, config: Config): (r: Settings)
    ensures Utf8Len(configFile) <= 1 ==> r == cli
    ensures Utf8Len(configFile) > 1 ==>
      && r.hosts == config.hosts
      && r.interval == config.interval
      && Strconv.ParseInt(r.port) == Strconv.Some(config.port)
  {
    if Utf8Len(configFile) > 1 then
      Strconv.ItoaRoundTrip(config.port);
      Settings(config.hosts, Strconv.Itoa(config.port), config.interval)
    else cli
  }

  /**
   In characters, the override guard reads: at least two characters, or a
   single character outside ASCII (which takes two or more bytes). The empty
   path and any one-character ASCII path keep the command-line settings.
   */
  lemma OverrideGuard(configFile: string)
    ensures Utf8Len(configFile) > 1 <==>
      |configFile| >= 2 || (|configFile| == 1 && configFile[0] as int >= 0x80)
  {
    if |configFile| == 1 {
      assert configFile[..0] == "";
    }
  }

  /** Either every setting comes from the command line or every one from the config: no merge. */
  lemma NoMerge(cli: Settings, configFile: string, config: Config)
    ensures var r := EffectiveSettings(cli, configFile, config);
      r == cli || (r.hosts == config.hosts && r.port == Strconv.Itoa(config.port) && r.interval == config.interval)
  {
  }

  /**
   The `currentStats` map built before the first round: one zero record per
   distinct host, keyed by the host itself (a repeated host collapses into
   one entry).
   */
  method InitialStats(hosts: seq<string>) returns (m: map<string, Stats>)
    ensures m.Keys == set h | h in hosts
    ensures |m| <= |hosts|
    ensures forall k :: k in m ==> m[k] == Zero(k)
    ensures forall k :: k in m ==> StatsHistory.Valid(m[k])
  {
    m := map[];
    var i := 0;
    while i < |hosts|
      invariant 0 <= i <= |hosts|
      invariant m.Keys == set h | h in hosts[..i]
      invariant |m| <= i
      invariant forall k :: k in m ==> m[k] == Zero(k)
    {
      assert hosts[..i + 1] == hosts[..i] + [hosts[i]];
      m := m[hosts[i] := Zero(hosts[i])];
      i := i + 1;
    }
    assert hosts[..i] == hosts;
    forall k | k in m
      ensures StatsHistory.Valid(m[k])
    {
      StatsHistory.ZeroValid(k);
    }
  }

  /** What `net.DialTimeout` returned: a connection, or an error of any kind. */
  datatype DialResult = Connected | DialError(reason: string)

  /**
   `isHostUp` after the dial: exactly one `addResult`, a success exactly
   when the dial returned no error, with the measured duration.
   */
  function IsHostUp(dial: DialResult, duration: int, stat: Stats): (r: Stats)
    ensures r == AddResult(stat, dial.Connected?, duration)
    ensures r.host == stat.host
    ensures r.sent == stat.sent + 1
    ensures r.up <==> dial.Connected?
    ensures dial.Connected? ==>
      r.received == stat.received + 1 && r.times == stat.times + [duration]
      && r.totalTime == stat.totalTime + duration
    ensures dial.DialError? ==>
      && r.received == stat.received && r.times == stat.times && r.totalTime == stat.totalTime
      && r.minTime == stat.minTime && r.maxTime == stat.maxTime
  {
    var success := dial.Connected?;
    AddResult(stat, success, duration)
  }

  /** One completed probe: which host, what the dial returned, how long it took. */
  datatype Probe = Probe(host: string, dial: DialResult, duration: int)

  function AsOutcome(p: Probe): HostStats.Outcome
  {
    Outcome(p.dial.Connected?, p.duration)
  }

  /** One probe lands on the shared map: only its own host's record changes. */
  function ApplyProbe(m: map<string, Stats>, p: Probe): (r: map<string, Stats>)
    requires p.host in m
    ensures r.Keys == m.Keys
    ensures r[p.host] == IsHostUp(p.dial, p.duration, m[p.host])
    ensures forall k :: k in m && k != p.host ==> r[k] == m[k]
  {
    m[p.host := IsHostUp(p.dial, p.duration, m[p.host])]
  }

  /** Every probe is for a host the map holds (the loop only probes configured hosts). */
  predicate ProbesKnownHosts(m: map<string, Stats>, ps: seq<Probe>)
  {
    forall i :: 0 <= i < |ps| ==> ps[i].host in m
  }

  /** Completed probes applied in the order their `addResult` calls land. */
  function ApplyProbes(m: map<string, Stats>, ps: seq<Probe>): (r: map<string, Stats>)
    requires ProbesKnownHosts(m, ps)
    ensures r.Keys == m.Keys
  {
    if |ps| == 0 then m
    else ApplyProbe(ApplyProbes(m, ps[..|ps| - 1]), ps[|ps| - 1])
  }

  /** The outcomes of the probes of one host, in landing order. */
  function OutcomesOf(ps: seq<Probe>, host: string): seq<HostStats.Outcome>
  {
    if |ps| == 0 then []
    else
      var last := ps[|ps| - 1];
      OutcomesOf(ps[..|ps| - 1], host) + (if last.host == host then [AsOutcome(last)] else [])
  }

  /**
   Probes of other hosts never touch a host's record: after any
   interleaving, each record is its own outcomes replayed in landing order.
   */
  lemma {:induction false} HostsIndependent(m: map<string, Stats>, ps: seq<Probe>, host: string)
    requires ProbesKnownHosts(m, ps) && host in m
    ensures ApplyProbes(m, ps)[host] == StatsHistory.Replay(m[host], OutcomesOf(ps, host))
  {
    if |ps| > 0 {
      var init, last := ps[..|ps| - 1], ps[|ps| - 1];
      assert ProbesKnownHosts(m, init);
      HostsIndependent(m, init, host);
      var os := OutcomesOf(init, host);
      if last.host == host {
        assert OutcomesOf(ps, host) == os + [AsOutcome(last)];
        assert (os + [AsOutcome(last)])[..|os|] == os;
      } else {
        assert OutcomesOf(ps, host) == os + [] == os;
      }
    }
  }

  lemma {:induction false} OutcomesOfNonNegative(ps: seq<Probe>, host: string)
    requires forall i :: 0 <= i < |ps| ==> ps[i].duration >= 0
    ensures StatsHistory.NonNegativeDurations(OutcomesOf(ps, host))
  {
    if |ps| > 0 {
      OutcomesOfNonNegative(ps[..|ps| - 1], host);
    }
  }

  /** Every record is valid and filed under its own host name. */
  ghost predicate AllValid(m: map<string, Stats>)
  {
    forall k :: k in m ==> StatsHistory.Valid(m[k]) && m[k].host == k
  }

  /**
   With every update atomic, any sequence of completed probes keeps every
   record of the map valid, so a reader never sees `received > sent` or a
   total that disagrees with the recorded latencies.
   */
  lemma ProbesPreserveValid(m: map<string, Stats>, ps: seq<Probe>)
    requires AllValid(m) && ProbesKnownHosts(m, ps)
    requires forall i :: 0 <= i < |ps| ==> ps[i].duration >= 0
    ensures AllValid(ApplyProbes(m, ps))
  {
    forall k | k in m
      ensures StatsHistory.Valid(ApplyProbes(m, ps)[k]) && ApplyProbes(m, ps)[k].host == k
    {
      HostsIndependent(m, ps, k);
      OutcomesOfNonNegative(ps, k);
      StatsHistory.ReplayPreservesValid(m[k], OutcomesOf(ps, k));
      StatsHistory.ReplayAccumulates(m[k], OutcomesOf(ps, k));
    }
  }

  /**
   Starting from the initial map, every `/stats` row built at any point of
   any probe history is consistent: `received <= sent`, loss in [0, 100],
   `minTime <= maxTime` in milliseconds, and the row's host is its key.
   */
  lemma SnapshotRowsConsistent(m: map<string, Stats>, ps: seq<Probe>, host: string)
    requires forall k :: k in m ==> m[k] == Zero(k)
    requires ProbesKnownHosts(m, ps) && host in m
    requires forall i :: 0 <= i < |ps| ==> ps[i].duration >= 0
    ensures var row := Serve.ToRow(ApplyProbes(m, ps)[host]);
      && row.host == host
      && 0 <= row.received <= row.sent
      && 0.0 <= row.packetLoss <= 100.0
      && 0 <= row.minTime <= row.maxTime
  {
    forall k | k in m
      ensures StatsHistory.Valid(m[k]) && m[k].host == k
    {
      StatsHistory.ZeroValid(k);
    }
    ProbesPreserveValid(m, ps);
    Serve.RowOfValidRecord(ApplyProbes(m, ps)[host]);
  }
}
