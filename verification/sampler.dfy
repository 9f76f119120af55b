/** The body of the sampling loop as a state-transition function.

    The loop's state is the history vector, the last computed filesystem
    usages and the loop counter. One iteration reads the probes (given here as
    a `Probe` value), derives one sample, appends it to the history and
    increments the counter. A panic ends the sampling thread; it is returned
    as `Panic`. */
module Sampler {
  import opened Outcomes
  import opened RustInt
  import opened Selectors
  import opened Network
  import opened Throttle
  import History

  /** A probe reading rendered for output (CPU, memory or swap percentage);
      its floating-point computation is not modelled. */
  type Gauge = string

  datatype BasicStats = BasicStats(
    cpu: Gauge,
    ram: Gauge,
    rootFs: Percent,
    swapFs: Gauge,
    netDownKbps: I32,
    netUpKbps: I32,
    temperature: I32)

  datatype FileSystemStats = FileSystemStats(fsName: string, fsMountPoint: string, fsUsedPercentage: Percent)

  datatype KubernetesNodeStats = KubernetesNodeStats(
    nodeRole: string,
    nodeName: string,
    nodeIp: string,
    nodeBasicStats: BasicStats,
    nodePods: seq<string>,
    nodePodsMax: nat)

  datatype KubernetesStats = KubernetesStats(nodeStats: seq<KubernetesNodeStats>)

  /** One sample of the history. */
  datatype Stats = Stats(
    basicStats: BasicStats,
    fileSystemsStats: seq<FileSystemStats>,
    kubernetesStats: seq<KubernetesStats>)

  /** A configured filesystem: display name and mount point. */
  datatype FileSystemTarget = FileSystemTarget(name: string, mountPoint: string)

  /** The settings the loop reads; fixed for the life of the process. */
  datatype Config = Config(
    cmdnPollingSecs: NonNegI32,
    fileSystemsPollingSecs: NonNegI32,
    historyDepth: nat,
    iface: string,
    tempItem: string,
    fileSystems: seq<FileSystemTarget>)

  /** What the probes report in one iteration. */
  datatype Probe = Probe(
    cpu: Gauge,
    ram: Gauge,
    swap: Gauge,
    disks: seq<Disk>,
    networks: seq<Interface>,
    components: seq<Component>)

  /** The loop's state between iterations: the history, the usages last
      computed, the iteration counter, and the filesystem refresh period
      computed once before the loop starts. */
  datatype Engine = Engine(
    stats: seq<Stats>,
    lastFsUsage: seq<FileSystemStats>,
    loopCount: nat,
    fsRefreshCycles: U64)

  /** The state when the loop starts. */
  function Start(cfg: Config): (e: Engine)
    ensures e.stats == [] && e.lastFsUsage == [] && e.loopCount == 0
    ensures cfg.fileSystemsPollingSecs == 0 ==> e.fsRefreshCycles == DEFAULT_REFRESH_CYCLES
    ensures e.fsRefreshCycles >= 1 <==>
      cfg.fileSystemsPollingSecs == 0 || cfg.cmdnPollingSecs == 0 ||
      cfg.cmdnPollingSecs <= cfg.fileSystemsPollingSecs
  {
    Engine([], [], 0, RefreshCycles(cfg.cmdnPollingSecs, cfg.fileSystemsPollingSecs))
  }

  /** Iteration `loopCount` recomputes the filesystem usages. */
  predicate RefreshDue(cycles: U64, loopCount: nat) {
    cycles >= 1 && loopCount % cycles == 0
  }

  /** Iteration `loopCount` carries the previous usages forward. */
  predicate StaleDue(cycles: U64, loopCount: nat) {
    cycles >= 1 && loopCount % cycles != 0
  }

  // ---------------------------------------------------------------------
  // Filesystem usage with stale-carry

  /** `fs` has one entry per target, in target order, whose name and mount
      point are the target's and whose percentage is the disk selector's. */
  predicate FreshFor(targets: seq<FileSystemTarget>, disks: seq<Disk>, fs: seq<FileSystemStats>) {
    |fs| == |targets| &&
    forall i :: 0 <= i < |fs| ==>
      fs[i].fsName == targets[i].name &&
      fs[i].fsMountPoint == targets[i].mountPoint &&
      FsUse(disks, targets[i].mountPoint) == Ok(fs[i].fsUsedPercentage)
  }

  predicate TargetsDefined(targets: seq<FileSystemTarget>, disks: seq<Disk>) {
    forall i :: 0 <= i < |targets| ==> UsageDefined(disks, targets[i].mountPoint)
  }

  /** The refresh branch: one `get_fs_use` per configured filesystem, in
      configuration order. */
  function RefreshFileSystems(targets: seq<FileSystemTarget>, disks: seq<Disk>): (r: Outcome<seq<FileSystemStats>>)
    ensures r.Ok? <==> TargetsDefined(targets, disks)
    ensures r.Ok? ==> FreshFor(targets, disks, r.value)
  {
    if |targets| == 0 then Ok([])
    else
      var t := targets[0];
      assert TargetsDefined(targets, disks) <==>
        UsageDefined(disks, t.mountPoint) && TargetsDefined(targets[1..], disks);
      var pct :- FsUse(disks, t.mountPoint);
      var rest :- RefreshFileSystems(targets[1..], disks);
      Ok([FileSystemStats(t.name, t.mountPoint, pct)] + rest)
  }

  /** The usages reported by one iteration and the usages remembered for the
      next one. */
  datatype FsStep = FsStep(usage: seq<FileSystemStats>, last: seq<FileSystemStats>)

  predicate FsDefined(cfg: Config, cycles: U64, loopCount: nat, disks: seq<Disk>) {
    |cfg.fileSystems| == 0 ||
    StaleDue(cycles, loopCount) ||
    (RefreshDue(cycles, loopCount) && TargetsDefined(cfg.fileSystems, disks))
  }

  /** The filesystem part of one iteration. With no filesystem configured it
      reports nothing; otherwise it recomputes on refresh iterations and copies
      the remembered usages on the others. */
  function FileSystemUsage(cfg: Config, cycles: U64, loopCount: nat, last: seq<FileSystemStats>, disks: seq<Disk>): (r: Outcome<FsStep>)
    ensures r.Ok? <==> FsDefined(cfg, cycles, loopCount, disks)
    ensures |cfg.fileSystems| > 0 && cycles == 0 ==> r == Panic(RemainderByZero)
    ensures r.Ok? && |cfg.fileSystems| == 0 ==> r.value.usage == [] && r.value.last == last
    ensures r.Ok? && |cfg.fileSystems| > 0 && StaleDue(cycles, loopCount) ==>
      r.value.usage == last && r.value.last == last
    ensures r.Ok? && |cfg.fileSystems| > 0 && RefreshDue(cycles, loopCount) ==>
      r.value.usage == r.value.last && FreshFor(cfg.fileSystems, disks, r.value.usage)
  {
    if |cfg.fileSystems| == 0 then Ok(FsStep([], last))
    else
      var refresh :- IsRefreshCycle(loopCount, cycles);
      if refresh then
        var recomputed :- RefreshFileSystems(cfg.fileSystems, disks);
        Ok(FsStep(recomputed, recomputed))
      else
        Ok(FsStep(last, last))
  }

  // ---------------------------------------------------------------------
  // One sample

  /** The temperature reported: 0 when no sensor is configured (the sensors
      are then not consulted), else the configured sensor's reading. */
  function Temperature(cfg: Config, comps: seq<Component>): (r: I32)
    ensures |cfg.tempItem| == 0 ==> r == 0
    ensures |cfg.tempItem| > 0 && NoLabel(comps, cfg.tempItem) ==> r == NO_SENSOR
    ensures |cfg.tempItem| > 0 ==>
      forall i :: IsLastLabel(comps, cfg.tempItem, i) ==> r == comps[i].temperature
  {
    if |cfg.tempItem| > 0 then GetTemp(comps, cfg.tempItem) else 0
  }

  predicate CanSample(cfg: Config, e: Engine, p: Probe) {
    UsageDefined(p.disks, ROOT_MOUNT) &&
    RateDefined(Counters(p.networks, Down, SelectorOf(cfg.iface)), cfg.cmdnPollingSecs) &&
    RateDefined(Counters(p.networks, Up, SelectorOf(cfg.iface)), cfg.cmdnPollingSecs) &&
    FsDefined(cfg, e.fsRefreshCycles, e.loopCount, p.disks)
  }

  datatype Sampled = Sampled(sample: Stats, lastFsUsage: seq<FileSystemStats>)

  /** `b` holds the readings of `p` as the loop reports them: the gauges
      copied, the root usage from `get_root_use`, the two rates for the
      configured interface and the configured temperature. */
  predicate BasicOf(cfg: Config, p: Probe, b: BasicStats) {
    b.cpu == p.cpu && b.ram == p.ram && b.swapFs == p.swap &&
    RootUse(p.disks) == Ok(b.rootFs) &&
    Rate(p.networks, cfg.cmdnPollingSecs, Down, SelectorOf(cfg.iface)) == Ok(b.netDownKbps) &&
    Rate(p.networks, cfg.cmdnPollingSecs, Up, SelectorOf(cfg.iface)) == Ok(b.netUpKbps) &&
    b.temperature == Temperature(cfg, p.components)
  }

  /** Builds the iteration's sample, computing its parts in the program's
      order: root usage, temperature, network rates, filesystems. */
  function SampleOf(cfg: Config, e: Engine, p: Probe): (r: Outcome<Sampled>)
    ensures r.Ok? <==> CanSample(cfg, e, p)
    ensures r.Ok? ==> BasicOf(cfg, p, r.value.sample.basicStats)
    ensures r.Ok? ==> r.value.sample.kubernetesStats == []
    ensures r.Ok? ==>
      FileSystemUsage(cfg, e.fsRefreshCycles, e.loopCount, e.lastFsUsage, p.disks) ==
        Ok(FsStep(r.value.sample.fileSystemsStats, r.value.lastFsUsage))
  {
    var rootFs :- RootUse(p.disks);
    var temperature := Temperature(cfg, p.components);
    var rates :- NetworkRates(p.networks, cfg.cmdnPollingSecs, cfg.iface);
    var fs :- FileSystemUsage(cfg, e.fsRefreshCycles, e.loopCount, e.lastFsUsage, p.disks);
    var basic := BasicStats(p.cpu, p.ram, rootFs, p.swap, rates.0, rates.1, temperature);
    Ok(Sampled(Stats(basic, fs.usage, []), fs.last))
  }

  // ---------------------------------------------------------------------
  // One iteration

  /** The most recent sample. */
  function Newest(e: Engine): Stats
    requires |e.stats| > 0
  {
    e.stats[|e.stats| - 1]
  }

  predicate CanStep(cfg: Config, e: Engine, p: Probe) {
    CanSample(cfg, e, p) && !(|e.stats| == 0 && cfg.historyDepth == 0)
  }

  /** One iteration of the loop: sample, append to the history (dropping the
      oldest sample when it is full), count the iteration. */
  function Step(cfg: Config, e: Engine, p: Probe): (r: Outcome<Engine>)
    ensures r.Ok? <==> CanStep(cfg, e, p)
    ensures r.Ok? ==> r.value.loopCount == e.loopCount + 1
    ensures r.Ok? ==> r.value.fsRefreshCycles == e.fsRefreshCycles
    ensures r.Ok? ==>
      |r.value.stats| >= 1 &&
      r.value.stats[..|r.value.stats| - 1] == (if |e.stats| == cfg.historyDepth then e.stats[1..] else e.stats)
    ensures r.Ok? && |e.stats| <= cfg.historyDepth ==> |r.value.stats| <= cfg.historyDepth
    ensures r.Ok? ==>
      SampleOf(cfg, e, p).Ok? && Newest(r.value) == SampleOf(cfg, e, p).value.sample
    ensures r.Ok? ==> Newest(r.value).kubernetesStats == []
    ensures r.Ok? && |cfg.fileSystems| == 0 ==>
      Newest(r.value).fileSystemsStats == [] && r.value.lastFsUsage == e.lastFsUsage
    ensures r.Ok? && |cfg.fileSystems| > 0 ==> StaleDue(e.fsRefreshCycles, e.loopCount) || RefreshDue(e.fsRefreshCycles, e.loopCount)
    ensures r.Ok? && |cfg.fileSystems| > 0 && StaleDue(e.fsRefreshCycles, e.loopCount) ==>
      Newest(r.value).fileSystemsStats == e.lastFsUsage && r.value.lastFsUsage == e.lastFsUsage
    ensures r.Ok? && |cfg.fileSystems| > 0 && RefreshDue(e.fsRefreshCycles, e.loopCount) ==>
      Newest(r.value).fileSystemsStats == r.value.lastFsUsage &&
      FreshFor(cfg.fileSystems, p.disks, r.value.lastFsUsage)
  {
    var s :- SampleOf(cfg, e, p);
    var stats :- History.Append(e.stats, cfg.historyDepth, s.sample);
    Ok(Engine(stats, s.lastFsUsage, e.loopCount + 1, e.fsRefreshCycles))
  }

  /** The sensors are not consulted when no temperature item is configured. */
  lemma SensorsIgnoredWithoutItem(cfg: Config, e: Engine, p: Probe, comps: seq<Component>)
    requires |cfg.tempItem| == 0
    ensures Step(cfg, e, p) == Step(cfg, e, p.(components := comps))
  {
  }

  // ---------------------------------------------------------------------
  // Many iterations

  /** One more iteration keeps the history equal to the window of every
      sample appended so far. */
  lemma WindowAfterStep(cfg: Config, start: seq<Stats>, t: Trace, p: Probe, e': Engine)
    requires Step(cfg, t.engine, p) == Ok(e')
    requires 1 <= cfg.historyDepth && |start| <= cfg.historyDepth
    requires t.engine.stats == History.Window(start + t.samples, cfg.historyDepth)
    ensures e'.stats == History.Window(start + (t.samples + [Newest(e')]), cfg.historyDepth)
  {
    var s := Newest(e');
    History.WindowAfterAppend(start + t.samples, cfg.historyDepth, e'.stats, s);
    History.ConcatAssoc(start, t.samples, [s]);
  }

  /** A sample taken on a refresh iteration (iterations numbered from 0)
      carries usages recomputed from that iteration's disks. */
  predicate FreshWhenDue(cfg: Config, cycles: U64, ps: seq<Probe>, samples: seq<Stats>) {
    cycles >= 1 && |samples| <= |ps| &&
    forall k :: 0 <= k < |samples| && k % cycles == 0 ==>
      FreshFor(cfg.fileSystems, ps[k].disks, samples[k].fileSystemsStats)
  }

  /** Any other sample copies the usages of the sample before it. */
  predicate CopiedWhenStale(cycles: U64, samples: seq<Stats>) {
    cycles >= 1 &&
    forall k :: 0 <= k < |samples| && k % cycles != 0 ==>
      k > 0 && samples[k].fileSystemsStats == samples[k - 1].fileSystemsStats
  }

  /** Iteration by iteration: how the filesystem usages of a run's samples
      arise. */
  predicate CarriedForward(cfg: Config, cycles: U64, ps: seq<Probe>, samples: seq<Stats>) {
    FreshWhenDue(cfg, cycles, ps, samples) && CopiedWhenStale(cycles, samples)
  }

  /** `CarriedForward` survives one more iteration that refreshes from its
      own disks on a refresh iteration and copies the remembered usages,
      those of the sample before, otherwise. */
  lemma CarryAfterStep(cfg: Config, cycles: U64, ps: seq<Probe>, samples: seq<Stats>, last: seq<FileSystemStats>, s: Stats)
    requires |samples| + 1 == |ps| && cycles >= 1
    requires |samples| > 0 ==>
      last == samples[|samples| - 1].fileSystemsStats &&
      CarriedForward(cfg, cycles, ps[..|samples|], samples)
    requires RefreshDue(cycles, |samples|) ==>
      FreshFor(cfg.fileSystems, ps[|samples|].disks, s.fileSystemsStats)
    requires StaleDue(cycles, |samples|) ==> s.fileSystemsStats == last
    ensures CarriedForward(cfg, cycles, ps, samples + [s])
  {
    var n := |samples|;
    var all := samples + [s];
    forall k | 0 <= k < |all|
      ensures k % cycles == 0 ==> FreshFor(cfg.fileSystems, ps[k].disks, all[k].fileSystemsStats)
      ensures k % cycles != 0 ==> k > 0 && all[k].fileSystemsStats == all[k - 1].fileSystemsStats
    {
      if k < n {
        assert all[k] == samples[k] && ps[..n][k] == ps[k];
        if k > 0 {
          assert all[k - 1] == samples[k - 1];
        }
      } else if n % cycles != 0 {
        assert StaleDue(cycles, n);
        assert all[n - 1] == samples[n - 1];
      }
    }
  }

  /** The final state and the sample each iteration appended. */
  datatype Trace = Trace(engine: Engine, samples: seq<Stats>)

  /** Runs one iteration per probe reading, in order, stopping at the first
      panic. */
  function Run(cfg: Config, e: Engine, ps: seq<Probe>): (r: Outcome<Trace>)
    ensures r.Ok? ==> |r.value.samples| == |ps| && r.value.engine.loopCount == e.loopCount + |ps|
    ensures r.Ok? ==> r.value.engine.fsRefreshCycles == e.fsRefreshCycles
    ensures r.Ok? && 1 <= cfg.historyDepth && |e.stats| <= cfg.historyDepth ==>
      r.value.engine.stats == History.Window(e.stats + r.value.samples, cfg.historyDepth)
    ensures r.Ok? && |ps| > 0 && |cfg.fileSystems| > 0 ==>
      r.value.engine.lastFsUsage == r.value.samples[|ps| - 1].fileSystemsStats
  {
    if |ps| == 0 then Ok(Trace(e, []))
    else
      var t :- Run(cfg, e, ps[..|ps| - 1]);
      var e' :- Step(cfg, t.engine, ps[|ps| - 1]);
      var samples := t.samples + [Newest(e')];
      assert 1 <= cfg.historyDepth && |e.stats| <= cfg.historyDepth ==>
        e'.stats == History.Window(e.stats + samples, cfg.historyDepth) by {
        if 1 <= cfg.historyDepth && |e.stats| <= cfg.historyDepth {
          WindowAfterStep(cfg, e.stats, t, ps[|ps| - 1], e');
        }
      }
      Ok(Trace(e', samples))
  }

  /** A run from loop count 0 satisfies `CarriedForward`. */
  lemma {:induction false} RunCarries(cfg: Config, e: Engine, ps: seq<Probe>, t: Trace)
    requires |cfg.fileSystems| > 0 && |ps| > 0 && e.loopCount == 0
    requires Run(cfg, e, ps) == Ok(t)
    ensures CarriedForward(cfg, e.fsRefreshCycles, ps, t.samples)
  {
    var n := |ps| - 1;
    var t0 := Run(cfg, e, ps[..n]).value;
    var e' := Step(cfg, t0.engine, ps[n]).value;
    var c := e.fsRefreshCycles;
    assert t.samples == t0.samples + [Newest(e')];
    assert c >= 1 && |t0.samples| == n && t0.engine.loopCount == n;
    assert t0.engine.fsRefreshCycles == c;
    if n > 0 {
      RunCarries(cfg, e, ps[..n], t0);
    }
    assert RefreshDue(c, n) ==> FreshFor(cfg.fileSystems, ps[n].disks, Newest(e').fileSystemsStats);
    assert StaleDue(c, n) ==> Newest(e').fileSystemsStats == t0.engine.lastFsUsage;
    CarryAfterStep(cfg, c, ps, t0.samples, t0.engine.lastFsUsage, Newest(e'));
  }
}
