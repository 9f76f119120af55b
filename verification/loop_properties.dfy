/** Properties of whole runs of the sampling loop started from its initial
    state. */
module LoopProperties {
  import opened Outcomes
  import opened RustInt
  import opened Selectors
  import opened Network
  import opened Throttle
  import opened Sampler
  import History

  /** Following the copies back: the usages of sample `k` are those of the
      sample taken at the latest refresh iteration. */
  lemma {:induction false} CopiedFromLatestRefresh(cycles: U64, samples: seq<Stats>, k: nat)
    requires CopiedWhenStale(cycles, samples)
    requires k < |samples|
    ensures samples[k].fileSystemsStats == samples[LatestRefresh(k, cycles)].fileSystemsStats
  {
    if k % cycles == 0 {
      assert LatestRefresh(k, cycles) == k;
    } else {
      ModPredecessor(k, cycles);
      CopiedFromLatestRefresh(cycles, samples, k - 1);
    }
  }

  /** Stale-carry in closed form: the filesystem usages of sample `k` are
      those recomputed at the latest refresh iteration, from that iteration's
      disk readings. */
  lemma CarriedFromLatestRefresh(cfg: Config, cycles: U64, ps: seq<Probe>, samples: seq<Stats>, k: nat)
    requires CarriedForward(cfg, cycles, ps, samples)
    requires k < |samples|
    ensures samples[k].fileSystemsStats == samples[LatestRefresh(k, cycles)].fileSystemsStats
    ensures FreshFor(cfg.fileSystems, ps[LatestRefresh(k, cycles)].disks, samples[k].fileSystemsStats)
  {
    CopiedFromLatestRefresh(cycles, samples, k);
  }

  /** Stale-carry over a run from loop count 0 (the initial state, say):
      each sample's filesystem usages are those recomputed at the latest
      refresh iteration. */
  lemma StaleCarry(cfg: Config, e: Engine, ps: seq<Probe>, t: Trace, k: nat)
    requires |cfg.fileSystems| > 0 && e.loopCount == 0
    requires k < |ps|
    requires Run(cfg, e, ps) == Ok(t)
    ensures e.fsRefreshCycles >= 1
    ensures var j := LatestRefresh(k, e.fsRefreshCycles);
      t.samples[k].fileSystemsStats == t.samples[j].fileSystemsStats &&
      FreshFor(cfg.fileSystems, ps[j].disks, t.samples[k].fileSystemsStats)
  {
    RunCarries(cfg, e, ps, t);
    CarriedFromLatestRefresh(cfg, e.fsRefreshCycles, ps, t.samples, k);
  }

  /** The readings of one iteration that never make the loop panic. */
  predicate SoundProbe(cfg: Config, p: Probe) {
    UsageDefined(p.disks, ROOT_MOUNT) &&
    RateDefined(Counters(p.networks, Down, SelectorOf(cfg.iface)), cfg.cmdnPollingSecs) &&
    RateDefined(Counters(p.networks, Up, SelectorOf(cfg.iface)), cfg.cmdnPollingSecs) &&
    TargetsDefined(cfg.fileSystems, p.disks)
  }

  /** A configuration under which the loop can run at all: a positive loop
      interval, room for one sample, and filesystems polled no more often
      than the loop runs. */
  predicate SoundConfig(cfg: Config) {
    cfg.cmdnPollingSecs > 0 &&
    cfg.historyDepth >= 1 &&
    (|cfg.fileSystems| == 0 || cfg.fileSystemsPollingSecs == 0 ||
     cfg.cmdnPollingSecs <= cfg.fileSystemsPollingSecs)
  }

  /** From any state whose history fits and whose refresh period is usable,
      sound readings make every iteration succeed, and the history is the
      window of the samples produced. */
  lemma {:induction false} RunSucceedsFrom(cfg: Config, e: Engine, ps: seq<Probe>)
    requires SoundConfig(cfg) && |e.stats| <= cfg.historyDepth
    requires |cfg.fileSystems| == 0 || e.fsRefreshCycles >= 1
    requires forall k :: 0 <= k < |ps| ==> SoundProbe(cfg, ps[k])
    ensures Run(cfg, e, ps).Ok?
    ensures Run(cfg, e, ps).value.engine.stats ==
      History.Window(e.stats + Run(cfg, e, ps).value.samples, cfg.historyDepth)
  {
    if |ps| > 0 {
      var n := |ps| - 1;
      var init := ps[..n];
      assert forall k :: 0 <= k < |init| ==> init[k] == ps[k];
      RunSucceedsFrom(cfg, e, init);
      var t := Run(cfg, e, init).value;
      assert SoundProbe(cfg, ps[n]);
      if |cfg.fileSystems| > 0 && t.engine.loopCount % e.fsRefreshCycles != 0 {
        assert StaleDue(t.engine.fsRefreshCycles, t.engine.loopCount);
      }
      assert CanStep(cfg, t.engine, ps[n]);
    }
  }

  /** With a sound configuration and sound readings every iteration from the
      initial state succeeds, and the history is the window of the samples
      produced. */
  lemma RunSucceeds(cfg: Config, ps: seq<Probe>)
    requires SoundConfig(cfg)
    requires forall k :: 0 <= k < |ps| ==> SoundProbe(cfg, ps[k])
    ensures Run(cfg, Start(cfg), ps).Ok?
    ensures Run(cfg, Start(cfg), ps).value.engine.stats ==
      History.Window(Run(cfg, Start(cfg), ps).value.samples, cfg.historyDepth)
  {
    var e := Start(cfg);
    RunSucceedsFrom(cfg, e, ps);
    assert e.stats + Run(cfg, e, ps).value.samples == Run(cfg, e, ps).value.samples;
  }

  /** No sample of a run carries Kubernetes statistics. */
  lemma {:induction false} RunReportsNoKubernetes(cfg: Config, e: Engine, ps: seq<Probe>, t: Trace)
    requires Run(cfg, e, ps) == Ok(t)
    ensures forall k :: 0 <= k < |t.samples| ==> t.samples[k].kubernetesStats == []
  {
    if |ps| > 0 {
      var n := |ps| - 1;
      var t0 := Run(cfg, e, ps[..n]).value;
      var e' := Step(cfg, t0.engine, ps[n]).value;
      RunReportsNoKubernetes(cfg, e, ps[..n], t0);
      assert t.samples == t0.samples + [Newest(e')];
    }
  }

  /** Sample `k` of a run holds the readings of probe `k`: its gauges, its
      root usage, its rates and its temperature. */
  lemma {:induction false} RunReportsReadings(cfg: Config, e: Engine, ps: seq<Probe>, t: Trace)
    requires Run(cfg, e, ps) == Ok(t)
    ensures forall k :: 0 <= k < |t.samples| ==> BasicOf(cfg, ps[k], t.samples[k].basicStats)
  {
    if |ps| > 0 {
      var n := |ps| - 1;
      var t0 := Run(cfg, e, ps[..n]).value;
      var e' := Step(cfg, t0.engine, ps[n]).value;
      RunReportsReadings(cfg, e, ps[..n], t0);
      ReadingsSnoc(cfg, ps, t0.samples, Newest(e'));
      assert t.samples == t0.samples + [Newest(e')];
    }
  }

  /** Extending per-iteration readings by one iteration. */
  lemma ReadingsSnoc(cfg: Config, ps: seq<Probe>, samples: seq<Stats>, s: Stats)
    requires |ps| == |samples| + 1
    requires forall k :: 0 <= k < |samples| ==> BasicOf(cfg, ps[..|samples|][k], samples[k].basicStats)
    requires BasicOf(cfg, ps[|samples|], s.basicStats)
    ensures forall k :: 0 <= k < |ps| ==> BasicOf(cfg, ps[k], (samples + [s])[k].basicStats)
  {
    forall k | 0 <= k < |ps|
      ensures BasicOf(cfg, ps[k], (samples + [s])[k].basicStats)
    {
      if k < |samples| {
        assert ps[..|samples|][k] == ps[k] && (samples + [s])[k] == samples[k];
      }
    }
  }

  /** With no filesystem configured every sample reports none and the
      remembered usages never change. */
  lemma {:induction false} RunWithoutFileSystems(cfg: Config, e: Engine, ps: seq<Probe>, t: Trace)
    requires |cfg.fileSystems| == 0
    requires Run(cfg, e, ps) == Ok(t)
    ensures t.engine.lastFsUsage == e.lastFsUsage
    ensures forall k :: 0 <= k < |t.samples| ==> t.samples[k].fileSystemsStats == []
  {
    if |ps| > 0 {
      var n := |ps| - 1;
      var t0 := Run(cfg, e, ps[..n]).value;
      var e' := Step(cfg, t0.engine, ps[n]).value;
      RunWithoutFileSystems(cfg, e, ps[..n], t0);
      assert t.samples == t0.samples + [Newest(e')];
    }
  }

  /** A run of at least one iteration succeeds only with a positive loop
      interval, a usable refresh period when filesystems are configured, and
      room for a sample when the history starts empty. */
  lemma {:induction false} RunNeedsSettings(cfg: Config, e: Engine, ps: seq<Probe>)
    requires |ps| > 0
    ensures Run(cfg, e, ps).Ok? ==>
      cfg.cmdnPollingSecs > 0 &&
      (|cfg.fileSystems| == 0 || e.fsRefreshCycles >= 1) &&
      (|e.stats| == 0 ==> cfg.historyDepth >= 1)
  {
    var n := |ps| - 1;
    if Run(cfg, e, ps).Ok? {
      var t0 := Run(cfg, e, ps[..n]).value;
      assert CanStep(cfg, t0.engine, ps[n]);
      assert RateDefined(Counters(ps[n].networks, Down, SelectorOf(cfg.iface)), cfg.cmdnPollingSecs);
      if n > 0 {
        RunNeedsSettings(cfg, e, ps[..n]);
      } else {
        assert t0.engine == e;
      }
    }
  }

  /** A history depth of 0 makes the first iteration remove from an empty
      vector. */
  lemma ZeroDepthPanics(cfg: Config, ps: seq<Probe>)
    requires cfg.historyDepth == 0
    requires |ps| > 0
    ensures Run(cfg, Start(cfg), ps).Panic?
  {
    RunNeedsSettings(cfg, Start(cfg), ps);
  }

  /** A zero loop interval makes the rate division by zero panic (or an
      overflow before it). */
  lemma ZeroIntervalPanics(cfg: Config, ps: seq<Probe>)
    requires cfg.cmdnPollingSecs == 0
    requires |ps| > 0
    ensures Run(cfg, Start(cfg), ps).Panic?
  {
    RunNeedsSettings(cfg, Start(cfg), ps);
  }

  /** Filesystems polled more often than the loop runs give a refresh period
      of 0, and the loop panics at its first iteration's refresh test at the
      latest. */
  lemma FasterFileSystemPollingPanics(cfg: Config, ps: seq<Probe>)
    requires |cfg.fileSystems| > 0
    requires 0 < cfg.fileSystemsPollingSecs < cfg.cmdnPollingSecs
    requires |ps| > 0
    ensures Run(cfg, Start(cfg), ps).Panic?
  {
    RunNeedsSettings(cfg, Start(cfg), ps);
  }
}
