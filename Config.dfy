/**
 * Scrape configuration: validation (an ordered chain of checks, the first
 * failure wins) and processing (defaults resolved per job, label maps
 * merged, target URLs built).
 *
 * Durations are Go time.Duration values, int64 nanoseconds. Strings here are
 * never hashed or ordered, so they are Dafny strings.
 */
module Config {
  import opened Wrappers
  import opened Primitives

  datatype GlobalConfig = GlobalConfig(
    scrapeInterval: int64,
    scrapeTimeout: int64,
    evaluationInterval: int64,
    externalLabels: map<string, string>)

  datatype StaticConfig = StaticConfig(targets: seq<string>, labels: map<string, string>)

  datatype ScrapeConfig = ScrapeConfig(
    jobName: string,
    scrapeInterval: int64,
    scrapeTimeout: int64,
    metricsPath: string,
    staticConfigs: seq<StaticConfig>)

  datatype Config = Config(global: GlobalConfig, scrapeConfigs: seq<ScrapeConfig>)

  /** The errors Validate reports, with the values its messages carry. */
  datatype ConfigError =
    | GlobalTimeoutExceedsInterval(timeout: int64, interval: int64)
    | JobNameRequired(index: nat)
    | JobTimeoutExceedsInterval(job: string, timeout: int64, interval: int64)
    | NoTargetsConfigured(job: string)
    | StaticConfigWithoutTargets(job: string, index: nat)

  const Second: int64 := 1_000_000_000
  const DefaultMetricPath: string := "/metrics"
  const DefaultScrapeInterval: int64 := 15 * Second
  const DefaultScrapeTimeout: int64 := 10 * Second

  // ---------------------------------------------------------------- Validate

  predicate HasTargets(stc: StaticConfig) {
    |stc.targets| > 0
  }

  /** A job passes every per-job check of Validate. */
  predicate JobValid(sc: ScrapeConfig) {
    && sc.jobName != ""
    && sc.scrapeTimeout <= sc.scrapeInterval
    && |sc.staticConfigs| > 0
    && forall j :: 0 <= j < |sc.staticConfigs| ==> HasTargets(sc.staticConfigs[j])
  }

  /** A configuration Validate accepts. */
  predicate ConfigValid(c: Config) {
    && c.global.scrapeTimeout <= c.global.scrapeInterval
    && forall i :: 0 <= i < |c.scrapeConfigs| ==> JobValid(c.scrapeConfigs[i])
  }

  /** Job i is the first job that fails its checks. */
  predicate FirstInvalidJob(jobs: seq<ScrapeConfig>, i: int) {
    && 0 <= i < |jobs|
    && !JobValid(jobs[i])
    && forall k :: 0 <= k < i ==> JobValid(jobs[k])
  }

  /** The index of the first static config without targets, if any. */
  function FirstWithoutTargets(stcs: seq<StaticConfig>): (r: Option<nat>)
    ensures r.None? <==> forall j :: 0 <= j < |stcs| ==> HasTargets(stcs[j])
    ensures r.Some? ==> r.value < |stcs| && !HasTargets(stcs[r.value])
    ensures r.Some? ==> forall j :: 0 <= j < r.value ==> HasTargets(stcs[j])
  {
    if stcs == [] then None
    else if !HasTargets(stcs[0]) then Some(0)
    else match FirstWithoutTargets(stcs[1..])
      case None => None
      case Some(j) => Some(j + 1)
  }

  /**
   * The error Validate reports for the job sc at index i: an empty name,
   * then timeout above interval (on the job's own values), then no static
   * configs, then the first static config without targets.
   */
  function JobError(sc: ScrapeConfig, i: nat): (r: Option<ConfigError>)
    ensures r.None? <==> JobValid(sc)
  {
    if sc.jobName == "" then Some(JobNameRequired(i))
    else if sc.scrapeTimeout > sc.scrapeInterval then
      Some(JobTimeoutExceedsInterval(sc.jobName, sc.scrapeTimeout, sc.scrapeInterval))
    else if |sc.staticConfigs| == 0 then Some(NoTargetsConfigured(sc.jobName))
    else match FirstWithoutTargets(sc.staticConfigs)
      case None => None
      case Some(j) => Some(StaticConfigWithoutTargets(sc.jobName, j))
  }

  /**
   * Config.Validate: the global check first, then the jobs in order; the
   * first failing check is reported.
   */
  method Validate(c: Config) returns (err: Option<ConfigError>)
    ensures err.None? <==> ConfigValid(c)
    ensures c.global.scrapeTimeout > c.global.scrapeInterval ==>
      err == Some(GlobalTimeoutExceedsInterval(c.global.scrapeTimeout, c.global.scrapeInterval))
    ensures c.global.scrapeTimeout <= c.global.scrapeInterval && err.Some? ==>
      exists i :: FirstInvalidJob(c.scrapeConfigs, i) && err == JobError(c.scrapeConfigs[i], i)
  {
    if c.global.scrapeTimeout > c.global.scrapeInterval {
      return Some(GlobalTimeoutExceedsInterval(c.global.scrapeTimeout, c.global.scrapeInterval));
    }
    for i := 0 to |c.scrapeConfigs|
      invariant forall k :: 0 <= k < i ==> JobValid(c.scrapeConfigs[k])
    {
      var sc := c.scrapeConfigs[i];
      if sc.jobName == "" {
        assert FirstInvalidJob(c.scrapeConfigs, i);
        return Some(JobNameRequired(i));
      }
      if sc.scrapeTimeout > sc.scrapeInterval {
        assert FirstInvalidJob(c.scrapeConfigs, i);
        return Some(JobTimeoutExceedsInterval(sc.jobName, sc.scrapeTimeout, sc.scrapeInterval));
      }
      if |sc.staticConfigs| == 0 {
        assert FirstInvalidJob(c.scrapeConfigs, i);
        return Some(NoTargetsConfigured(sc.jobName));
      }
      for j := 0 to |sc.staticConfigs|
        invariant forall k :: 0 <= k < j ==> HasTargets(sc.staticConfigs[k])
      {
        if |sc.staticConfigs[j].targets| == 0 {
          assert FirstInvalidJob(c.scrapeConfigs, i);
          assert FirstWithoutTargets(sc.staticConfigs) == Some(j);
          return Some(StaticConfigWithoutTargets(sc.jobName, j));
        }
      }
    }
    return None;
  }

  /**
   * The per-job timeout check compares the job's own values before any
   * default is applied: a job that sets only its timeout is rejected.
   */
  lemma TimeoutAloneIsRejected(sc: ScrapeConfig)
    requires sc.scrapeInterval == 0 && sc.scrapeTimeout > 0
    ensures !JobValid(sc)
    ensures sc.jobName != "" ==> JobError(sc, 0) == Some(JobTimeoutExceedsInterval(sc.jobName, sc.scrapeTimeout, 0))
  {
  }

  // ----------------------------------------------------------------- Process

  /** Go's "use d when x is the zero value". */
  function OrDefault(x: int64, d: int64): int64 {
    if x == 0 then d else x
  }

  function OrDefaultPath(p: string): string {
    if p == "" then DefaultMetricPath else p
  }

  predicate HasPrefix(s: string, p: string) {
    |p| <= |s| && s[..|p|] == p
  }

  /** buildTargetUrl's scheme rule: `http://` is added unless http or https is already there. */
  function WithScheme(target: string): (r: string)
    ensures HasPrefix(r, "http://") || HasPrefix(r, "https://")
    ensures r == target || r == "http://" + target
  {
    if !HasPrefix(target, "http://") && !HasPrefix(target, "https://") then "http://" + target
    else target
  }

  /**
   * buildTargetUrl: the target with its scheme, parsed, with the metrics
   * path joined to its path. urlJoin stands for url.Parse, path.Join and
   * URL.String together; None is a parse error.
   */
  function BuildTargetUrl(target: string, metricsPath: string, urlJoin: (string, string) -> Option<string>): (r: Option<string>)
    ensures !HasPrefix(target, "http://") && !HasPrefix(target, "https://") ==> r == urlJoin("http://" + target, metricsPath)
    ensures HasPrefix(target, "http://") || HasPrefix(target, "https://") ==> r == urlJoin(target, metricsPath)
  {
    urlJoin(WithScheme(target), metricsPath)
  }

  /** The URLs of the targets that build, in target order; failures are dropped. */
  function BuildTargets(targets: seq<string>, metricsPath: string, urlJoin: (string, string) -> Option<string>): seq<string>
    decreases |targets|
  {
    if targets == [] then []
    else
      var init := targets[..|targets| - 1];
      var last := targets[|targets| - 1];
      BuildTargets(init, metricsPath, urlJoin) +
        match BuildTargetUrl(last, metricsPath, urlJoin)
        case Some(u) => [u]
        case None => []
  }

  /** Global external labels, overridden key by key by the static config's labels. */
  function MergeLabels(global: map<string, string>, local: map<string, string>): map<string, string> {
    global + local
  }

  /** One static config after processing. */
  function ProcessStatic(globalLabels: map<string, string>, stc: StaticConfig, metricsPath: string,
                         urlJoin: (string, string) -> Option<string>): StaticConfig
  {
    StaticConfig(BuildTargets(stc.targets, metricsPath, urlJoin), MergeLabels(globalLabels, stc.labels))
  }

  /** The static configs of a job after processing, in order. */
  function ProcessStatics(globalLabels: map<string, string>, stcs: seq<StaticConfig>, metricsPath: string,
                          urlJoin: (string, string) -> Option<string>): (r: seq<StaticConfig>)
    ensures |r| == |stcs|
    ensures forall j :: 0 <= j < |stcs| ==> r[j] == ProcessStatic(globalLabels, stcs[j], metricsPath, urlJoin)
    decreases |stcs|
  {
    if stcs == [] then []
    else
      ProcessStatics(globalLabels, stcs[..|stcs| - 1], metricsPath, urlJoin)
        + [ProcessStatic(globalLabels, stcs[|stcs| - 1], metricsPath, urlJoin)]
  }

  /** One job after processing, as Process stores it. */
  function ProcessJob(g: GlobalConfig, osc: ScrapeConfig, urlJoin: (string, string) -> Option<string>): (r: ScrapeConfig)
    ensures r.jobName == osc.jobName
    ensures |r.staticConfigs| == |osc.staticConfigs|
  {
    var path := OrDefaultPath(osc.metricsPath);
    ScrapeConfig(
      osc.jobName,
      OrDefault(osc.scrapeInterval, OrDefault(g.scrapeInterval, DefaultScrapeInterval)),
      OrDefault(osc.scrapeTimeout, OrDefault(g.scrapeTimeout, DefaultScrapeTimeout)),
      path,
      ProcessStatics(g.externalLabels, osc.staticConfigs, path, urlJoin))
  }

  /** The processed jobs keyed by name; a later job replaces an earlier one of the same name. */
  function ProcessAll(g: GlobalConfig, jobs: seq<ScrapeConfig>, urlJoin: (string, string) -> Option<string>): (r: map<string, ScrapeConfig>)
    ensures forall k :: k in r ==> r[k].jobName == k
    decreases |jobs|
  {
    if jobs == [] then map[]
    else
      var init := jobs[..|jobs| - 1];
      var last := jobs[|jobs| - 1];
      ProcessAll(g, init, urlJoin)[last.jobName := ProcessJob(g, last, urlJoin)]
  }

  /** No later job has the name of job i. */
  predicate LastWithName(jobs: seq<ScrapeConfig>, i: int)
    requires 0 <= i < |jobs|
  {
    forall k :: i < k < |jobs| ==> jobs[k].jobName != jobs[i].jobName
  }

  /** The names of the jobs. */
  function JobNames(jobs: seq<ScrapeConfig>): (r: set<string>)
    ensures forall i :: 0 <= i < |jobs| ==> jobs[i].jobName in r
    ensures forall n :: n in r ==> exists i :: 0 <= i < |jobs| && jobs[i].jobName == n
    decreases |jobs|
  {
    if jobs == [] then {}
    else JobNames(jobs[..|jobs| - 1]) + {jobs[|jobs| - 1].jobName}
  }

  /** Process keys its result by job name: exactly the names of the jobs. */
  lemma {:induction false} ProcessAllKeys(g: GlobalConfig, jobs: seq<ScrapeConfig>, urlJoin: (string, string) -> Option<string>)
    ensures ProcessAll(g, jobs, urlJoin).Keys == JobNames(jobs)
    decreases |jobs|
  {
    if jobs != [] {
      var init := jobs[..|jobs| - 1];
      ProcessAllKeys(g, init, urlJoin);
    }
  }

  /** The job stored under a name is the last job with that name, processed. */
  lemma {:induction false} ProcessAllLastWins(g: GlobalConfig, jobs: seq<ScrapeConfig>, urlJoin: (string, string) -> Option<string>, i: nat)
    requires i < |jobs| && LastWithName(jobs, i)
    ensures jobs[i].jobName in ProcessAll(g, jobs, urlJoin)
    ensures ProcessAll(g, jobs, urlJoin)[jobs[i].jobName] == ProcessJob(g, jobs[i], urlJoin)
    decreases |jobs|
  {
    var init := jobs[..|jobs| - 1];
    if i < |init| {
      assert LastWithName(init, i) by {
        forall k | i < k < |init|
          ensures init[k].jobName != init[i].jobName
        {
          assert init[k] == jobs[k];
        }
      }
      ProcessAllLastWins(g, init, urlJoin, i);
    }
  }

  /**
   * Durations resolve to the job's value if set, else the global value if
   * set, else the default; the result is never the zero "unset" value.
   */
  lemma ProcessedDurations(g: GlobalConfig, osc: ScrapeConfig, urlJoin: (string, string) -> Option<string>)
    ensures var r := ProcessJob(g, osc, urlJoin);
      && (osc.scrapeInterval != 0 ==> r.scrapeInterval == osc.scrapeInterval)
      && (osc.scrapeInterval == 0 && g.scrapeInterval != 0 ==> r.scrapeInterval == g.scrapeInterval)
      && (osc.scrapeInterval == 0 && g.scrapeInterval == 0 ==> r.scrapeInterval == DefaultScrapeInterval)
      && (osc.scrapeTimeout != 0 ==> r.scrapeTimeout == osc.scrapeTimeout)
      && (osc.scrapeTimeout == 0 && g.scrapeTimeout != 0 ==> r.scrapeTimeout == g.scrapeTimeout)
      && (osc.scrapeTimeout == 0 && g.scrapeTimeout == 0 ==> r.scrapeTimeout == DefaultScrapeTimeout)
      && r.scrapeInterval != 0 && r.scrapeTimeout != 0
  {
  }

  /** The metrics path is the job's own if set, else `/metrics`; it is never empty. */
  lemma ProcessedMetricsPath(g: GlobalConfig, osc: ScrapeConfig, urlJoin: (string, string) -> Option<string>)
    ensures var r := ProcessJob(g, osc, urlJoin);
      && (osc.metricsPath != "" ==> r.metricsPath == osc.metricsPath)
      && (osc.metricsPath == "" ==> r.metricsPath == DefaultMetricPath)
      && r.metricsPath != ""
  {
  }

  /**
   * Every static config keeps its position; its targets are built with the
   * job's resolved metrics path and its labels are merged with the global ones.
   */
  lemma ProcessedStaticConfigs(g: GlobalConfig, osc: ScrapeConfig, urlJoin: (string, string) -> Option<string>, j: nat)
    requires j < |osc.staticConfigs|
    ensures var r := ProcessJob(g, osc, urlJoin);
      && j < |r.staticConfigs|
      && r.staticConfigs[j].labels == MergeLabels(g.externalLabels, osc.staticConfigs[j].labels)
      && r.staticConfigs[j].targets == BuildTargets(osc.staticConfigs[j].targets, r.metricsPath, urlJoin)
  {
  }

  /**
   * Static-config labels override global external labels key by key; keys
   * of either survive, and no labels on either side give no labels.
   */
  lemma MergeLabelsOverrides(global: map<string, string>, local: map<string, string>)
    ensures MergeLabels(global, local).Keys == global.Keys + local.Keys
    ensures forall k :: k in local ==> MergeLabels(global, local)[k] == local[k]
    ensures forall k :: k in global && k !in local ==> MergeLabels(global, local)[k] == global[k]
    ensures global == map[] && local == map[] ==> MergeLabels(global, local) == map[]
  {
  }

  /** Merging the global labels in a second time changes nothing. */
  lemma MergeLabelsIdempotent(global: map<string, string>, local: map<string, string>)
    ensures MergeLabels(global, MergeLabels(global, local)) == MergeLabels(global, local)
  {
  }

  /** Building targets keeps their order: it distributes over concatenation. */
  lemma {:induction false} BuildTargetsConcat(a: seq<string>, b: seq<string>, metricsPath: string,
                                             urlJoin: (string, string) -> Option<string>)
    ensures BuildTargets(a + b, metricsPath, urlJoin) == BuildTargets(a, metricsPath, urlJoin) + BuildTargets(b, metricsPath, urlJoin)
    decreases |b|
  {
    if b == [] {
      assert a + b == a;
    } else {
      var init := b[..|b| - 1];
      assert (a + b)[..|a + b| - 1] == a + init;
      assert (a + b)[|a + b| - 1] == b[|b| - 1];
      BuildTargetsConcat(a, init, metricsPath, urlJoin);
    }
  }

  /** Only targets that fail to build are dropped; every URL comes from a target. */
  lemma {:induction false} BuildTargetsSound(targets: seq<string>, metricsPath: string,
                                            urlJoin: (string, string) -> Option<string>)
    ensures |BuildTargets(targets, metricsPath, urlJoin)| <= |targets|
    ensures forall u :: u in BuildTargets(targets, metricsPath, urlJoin) ==>
      exists t :: t in targets && BuildTargetUrl(t, metricsPath, urlJoin) == Some(u)
    decreases |targets|
  {
    if targets != [] {
      var init := targets[..|targets| - 1];
      BuildTargetsSound(init, metricsPath, urlJoin);
      assert forall t :: t in init ==> t in targets;
    }
  }

  /** When every target builds, the URLs are exactly the targets', one for one. */
  lemma {:induction false} BuildTargetsAllBuild(targets: seq<string>, metricsPath: string,
                                               urlJoin: (string, string) -> Option<string>)
    requires forall k :: 0 <= k < |targets| ==> BuildTargetUrl(targets[k], metricsPath, urlJoin).Some?
    ensures |BuildTargets(targets, metricsPath, urlJoin)| == |targets|
    ensures forall k :: 0 <= k < |targets| ==>
      BuildTargets(targets, metricsPath, urlJoin)[k] == BuildTargetUrl(targets[k], metricsPath, urlJoin).value
    decreases |targets|
  {
    if targets != [] {
      BuildTargetsAllBuild(targets[..|targets| - 1], metricsPath, urlJoin);
    }
  }

  /** `http://` is added exactly when the target has neither scheme. */
  lemma SchemePrefixRule(target: string)
    ensures WithScheme(target) == "http://" + target
      <==> !HasPrefix(target, "http://") && !HasPrefix(target, "https://")
    ensures WithScheme(target) == target
      <==> HasPrefix(target, "http://") || HasPrefix(target, "https://")
  {
  }

  /** A target that already has its scheme is left alone, so adding one twice is adding it once. */
  lemma WithSchemeIdempotent(target: string)
    ensures WithScheme(WithScheme(target)) == WithScheme(target)
  {
  }

  /** The scheme cases of config_test.go. */
  lemma WithSchemeExamples()
    ensures WithScheme("localhost:9090") == "http://localhost:9090"
    ensures WithScheme("http://localhost:9090") == "http://localhost:9090"
    ensures WithScheme("https://example.com:9090") == "https://example.com:9090"
  {
    var t := "localhost:9090";
    assert t[..7][0] != "http://"[0] && t[..8][0] != "https://"[0];
    assert "http://localhost:9090"[..7] == "http://";
    assert "https://example.com:9090"[..8] == "https://";
  }

  /**
   * Processing an already processed job again keeps its durations, metrics
   * path and labels (only the target URLs would be rebuilt).
   */
  lemma ProcessJobStable(g: GlobalConfig, osc: ScrapeConfig, urlJoin: (string, string) -> Option<string>)
    ensures var once := ProcessJob(g, osc, urlJoin);
      var twice := ProcessJob(g, once, urlJoin);
      && twice.jobName == once.jobName
      && twice.scrapeInterval == once.scrapeInterval
      && twice.scrapeTimeout == once.scrapeTimeout
      && twice.metricsPath == once.metricsPath
      && |twice.staticConfigs| == |once.staticConfigs|
      && forall j :: 0 <= j < |once.staticConfigs| ==> twice.staticConfigs[j].labels == once.staticConfigs[j].labels
  {
    var once := ProcessJob(g, osc, urlJoin);
    forall j | 0 <= j < |once.staticConfigs|
      ensures ProcessJob(g, once, urlJoin).staticConfigs[j].labels == once.staticConfigs[j].labels
    {
      MergeLabelsIdempotent(g.externalLabels, osc.staticConfigs[j].labels);
    }
  }

  /** The `for k, v := range src { dst[k] = v }` loop. */
  method CopyLabels(dst: map<string, string>, src: map<string, string>) returns (r: map<string, string>)
    ensures r == dst + src
  {
    r := dst;
    var rest := src.Keys;
    while rest != {}
      invariant rest <= src.Keys
      invariant r.Keys == dst.Keys + (src.Keys - rest)
      invariant forall k :: k in src && k !in rest ==> r[k] == src[k]
      invariant forall k :: k in dst && k !in src.Keys - rest ==> r[k] == dst[k]
      decreases rest
    {
      var k :| k in rest;
      r := r[k := src[k]];
      rest := rest - {k};
    }
  }

  /** The loop building realTargets: each target that builds, in order. */
  method RealTargets(targets: seq<string>, metricsPath: string, urlJoin: (string, string) -> Option<string>)
    returns (r: seq<string>)
    ensures r == BuildTargets(targets, metricsPath, urlJoin)
  {
    r := [];
    for i := 0 to |targets|
      invariant r == BuildTargets(targets[..i], metricsPath, urlJoin)
    {
      assert targets[..i + 1][..i] == targets[..i];
      var realTarget := BuildTargetUrl(targets[i], metricsPath, urlJoin);
      if realTarget.Some? {
        r := r + [realTarget.value];
      }
    }
    assert targets[..|targets|] == targets;
  }

  /**
   * The body of Process's static-config loop: merged labels (global ones
   * only when there are any, then the config's own) and the built targets.
   */
  method ProcessStaticConfig(globalLabels: map<string, string>, hasGlobalLabels: bool, ostc: StaticConfig,
                             metricsPath: string, urlJoin: (string, string) -> Option<string>)
    returns (stc: StaticConfig)
    requires hasGlobalLabels <==> |globalLabels| > 0
    ensures stc == ProcessStatic(globalLabels, ostc, metricsPath, urlJoin)
  {
    var mergedLabels: map<string, string> := map[];
    if hasGlobalLabels {
      mergedLabels := CopyLabels(mergedLabels, globalLabels);
    }
    assert mergedLabels == globalLabels;
    mergedLabels := CopyLabels(mergedLabels, ostc.labels);
    var realTargets := RealTargets(ostc.targets, metricsPath, urlJoin);
    stc := StaticConfig(realTargets, mergedLabels);
  }

  /** Processing one more static config appends its processed form. */
  lemma ProcessStaticsSnoc(globalLabels: map<string, string>, stcs: seq<StaticConfig>, j: nat,
                           metricsPath: string, urlJoin: (string, string) -> Option<string>)
    requires j < |stcs|
    ensures ProcessStatics(globalLabels, stcs[..j + 1], metricsPath, urlJoin)
      == ProcessStatics(globalLabels, stcs[..j], metricsPath, urlJoin) + [ProcessStatic(globalLabels, stcs[j], metricsPath, urlJoin)]
  {
    assert stcs[..j + 1][..j] == stcs[..j];
  }

  /** Process's static-config loop: each static config processed, in order. */
  method ProcessStaticConfigs(globalLabels: map<string, string>, hasGlobalLabels: bool, ostcs: seq<StaticConfig>,
                              metricsPath: string, urlJoin: (string, string) -> Option<string>)
    returns (stcs: seq<StaticConfig>)
    requires hasGlobalLabels <==> |globalLabels| > 0
    ensures stcs == ProcessStatics(globalLabels, ostcs, metricsPath, urlJoin)
  {
    stcs := [];
    for j := 0 to |ostcs|
      invariant stcs == ProcessStatics(globalLabels, ostcs[..j], metricsPath, urlJoin)
    {
      var stc := ProcessStaticConfig(globalLabels, hasGlobalLabels, ostcs[j], metricsPath, urlJoin);
      ProcessStaticsSnoc(globalLabels, ostcs, j, metricsPath, urlJoin);
      stcs := stcs + [stc];
    }
    assert ostcs[..|ostcs|] == ostcs;
  }

  /**
   * The body of Process's job loop: the job's metrics path, durations and
   * static configs resolved against the already defaulted global values.
   */
  method ProcessScrapeConfig(g: GlobalConfig, globalInterval: int64, globalTimeout: int64,
                             hasGlobalLabels: bool, osc: ScrapeConfig, urlJoin: (string, string) -> Option<string>)
    returns (sc: ScrapeConfig)
    requires globalInterval == OrDefault(g.scrapeInterval, DefaultScrapeInterval)
    requires globalTimeout == OrDefault(g.scrapeTimeout, DefaultScrapeTimeout)
    requires hasGlobalLabels <==> |g.externalLabels| > 0
    ensures sc == ProcessJob(g, osc, urlJoin)
  {
    var metricsPath := osc.metricsPath;
    if metricsPath == "" {
      metricsPath := DefaultMetricPath;
    }
    var interval := if osc.scrapeInterval == 0 then globalInterval else osc.scrapeInterval;
    var timeout := if osc.scrapeTimeout == 0 then globalTimeout else osc.scrapeTimeout;
    var stcs := ProcessStaticConfigs(g.externalLabels, hasGlobalLabels, osc.staticConfigs, metricsPath, urlJoin);
    sc := ScrapeConfig(osc.jobName, interval, timeout, metricsPath, stcs);
  }

  /**
   * Config.Process: every job with its durations and metrics path resolved,
   * its label maps merged and its target URLs built, keyed by job name.
   */
  method Process(c: Config, urlJoin: (string, string) -> Option<string>) returns (result: map<string, ScrapeConfig>)
    ensures result == ProcessAll(c.global, c.scrapeConfigs, urlJoin)
  {
    var globalInterval := c.global.scrapeInterval;
    if globalInterval == 0 {
      globalInterval := DefaultScrapeInterval;
    }
    var globalTimeout := c.global.scrapeTimeout;
    if globalTimeout == 0 {
      globalTimeout := DefaultScrapeTimeout;
    }
    var hasGlobalLabels := |c.global.externalLabels| > 0;
    result := map[];
    for i := 0 to |c.scrapeConfigs|
      invariant result == ProcessAll(c.global, c.scrapeConfigs[..i], urlJoin)
    {
      var sc := ProcessScrapeConfig(c.global, globalInterval, globalTimeout, hasGlobalLabels, c.scrapeConfigs[i], urlJoin);
      assert c.scrapeConfigs[..i + 1][..i] == c.scrapeConfigs[..i];
      result := result[sc.jobName := sc];
    }
    assert c.scrapeConfigs[..|c.scrapeConfigs|] == c.scrapeConfigs;
  }
}
