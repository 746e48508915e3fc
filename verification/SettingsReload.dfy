/**
 Applying edits of the configuration files without a restart. Restart-only settings keep their start-up values,
 and settings are swapped only when the files stood still while they were read.
 */
module SettingsReload {
  import opened Wrappers

  type Fields = map<string, string>

  /** The restart-only settings of `app`, and every other field of it. */
  datatype App = App(
    publicOrigin: Option<string>,
    debug: bool,
    warmCache: bool,
    warmSmart: bool,
    releaseEnabled: bool,
    releaseRepo: string,
    releaseInterval: int,
    releaseTimeout: real,
    others: Fields)

  datatype Paths = Paths(runtimeOverrides: string, profiles: string, others: Fields)

  /** A validated settings object; `others` are the top-level fields that a reload applies. */
  datatype Settings = Settings(app: App, perf: Fields, paths: Paths, configFile: string, others: Fields)

  datatype RestartOnly =
    | PublicOrigin | Debug | WarmCache | WarmSmart | ReleaseEnabled | ReleaseRepo | ReleaseInterval | ReleaseTimeout
    | Perf | AllPaths | ConfigFile

  const RESTART_ONLY_SETTINGS: seq<RestartOnly> := [
    PublicOrigin, Debug, WarmCache, WarmSmart, ReleaseEnabled, ReleaseRepo, ReleaseInterval, ReleaseTimeout,
    Perf, AllPaths, ConfigFile
  ]

  predicate Same(before: Settings, after: Settings, key: RestartOnly) {
    match key
    case PublicOrigin => before.app.publicOrigin == after.app.publicOrigin
    case Debug => before.app.debug == after.app.debug
    case WarmCache => before.app.warmCache == after.app.warmCache
    case WarmSmart => before.app.warmSmart == after.app.warmSmart
    case ReleaseEnabled => before.app.releaseEnabled == after.app.releaseEnabled
    case ReleaseRepo => before.app.releaseRepo == after.app.releaseRepo
    case ReleaseInterval => before.app.releaseInterval == after.app.releaseInterval
    case ReleaseTimeout => before.app.releaseTimeout == after.app.releaseTimeout
    case Perf => before.perf == after.perf
    case AllPaths => before.paths == after.paths
    case ConfigFile => before.configFile == after.configFile
  }

  function Differing(before: Settings, after: Settings, keys: seq<RestartOnly>): seq<RestartOnly> {
    if keys == [] then []
    else
      var last := keys[|keys| - 1];
      Differing(before, after, keys[..|keys| - 1]) + if Same(before, after, last) then [] else [last]
  }

  /** `restart_only_changes`. */
  function RestartOnlyChanges(before: Settings, after: Settings): seq<RestartOnly> {
    Differing(before, after, RESTART_ONLY_SETTINGS)
  }

  /** `with_running_restart_only_settings`. */
  function WithRunning(running: Settings, loaded: Settings): Settings {
    loaded.(
      app := loaded.app.(
        publicOrigin := running.app.publicOrigin,
        debug := running.app.debug,
        warmCache := running.app.warmCache,
        warmSmart := running.app.warmSmart,
        releaseEnabled := running.app.releaseEnabled,
        releaseRepo := running.app.releaseRepo,
        releaseInterval := running.app.releaseInterval,
        releaseTimeout := running.app.releaseTimeout),
      perf := running.perf,
      paths := running.paths,
      configFile := running.configFile)
  }

  /** The files watched for changes: configuration, runtime overrides, profiles. */
  type WatchList = paths: seq<string> | |paths| == 3 witness ["", "", ""]

  /** `config_watch_paths`. */
  function WatchPaths(settings: Settings): WatchList {
    [settings.configFile, settings.paths.runtimeOverrides, settings.paths.profiles]
  }

  lemma {:induction false} DifferingKeys(before: Settings, after: Settings, keys: seq<RestartOnly>)
    ensures forall key :: key in Differing(before, after, keys) <==> key in keys && !Same(before, after, key)
    ensures Differing(before, after, keys) == [] <==> forall key <- keys :: Same(before, after, key)
  {
    if keys != [] {
      DifferingKeys(before, after, keys[..|keys| - 1]);
      assert keys == keys[..|keys| - 1] + [keys[|keys| - 1]];
    }
  }

  lemma EveryKeyIsListed(key: RestartOnly)
    ensures key in RESTART_ONLY_SETTINGS
  {
    var i := match key
      case PublicOrigin => 0
      case Debug => 1
      case WarmCache => 2
      case WarmSmart => 3
      case ReleaseEnabled => 4
      case ReleaseRepo => 5
      case ReleaseInterval => 6
      case ReleaseTimeout => 7
      case Perf => 8
      case AllPaths => 9
      case ConfigFile => 10;
    assert RESTART_ONLY_SETTINGS[i] == key;
  }

  predicate AllSame(before: Settings, after: Settings) {
    forall key: RestartOnly :: Same(before, after, key)
  }

  /** The listed changes are the restart-only settings that differ. */
  lemma ChangesAreExactlyTheDifferences(before: Settings, after: Settings)
    ensures forall key :: key in RestartOnlyChanges(before, after) <==> !Same(before, after, key)
    ensures RestartOnlyChanges(before, after) == [] <==> AllSame(before, after)
  {
    DifferingKeys(before, after, RESTART_ONLY_SETTINGS);
    forall key: RestartOnly
      ensures key in RESTART_ONLY_SETTINGS
    {
      EveryKeyIsListed(key);
    }
  }

  lemma MergedAgrees(running: Settings, loaded: Settings)
    ensures AllSame(running, WithRunning(running, loaded))
    ensures AllSame(running, loaded) <==> WithRunning(running, loaded) == loaded
  {
    if AllSame(running, loaded) {
      assert Same(running, loaded, PublicOrigin) && Same(running, loaded, Debug);
      assert Same(running, loaded, WarmCache) && Same(running, loaded, WarmSmart);
      assert Same(running, loaded, ReleaseEnabled) && Same(running, loaded, ReleaseRepo);
      assert Same(running, loaded, ReleaseInterval) && Same(running, loaded, ReleaseTimeout);
      assert Same(running, loaded, Perf) && Same(running, loaded, AllPaths) && Same(running, loaded, ConfigFile);
    }
  }

  /**
   The table of restart-only settings and the merge agree: the merge takes from the running settings exactly what
   the table names, and everything else from the files.
   */
  lemma MergeIsExact(running: Settings, loaded: Settings)
    ensures RestartOnlyChanges(running, WithRunning(running, loaded)) == []
    ensures RestartOnlyChanges(running, loaded) == [] <==> WithRunning(running, loaded) == loaded
    ensures WithRunning(loaded, WithRunning(running, loaded)) == loaded
  {
    MergedAgrees(running, loaded);
    ChangesAreExactlyTheDifferences(running, WithRunning(running, loaded));
    ChangesAreExactlyTheDifferences(running, loaded);
  }

  // ---------------------------------------------------------------- the reloader

  datatype Stat = Stat(modified: int, size: nat, inode: nat)

  type Stats = s: seq<Option<Stat>> | |s| == 3 witness [None, None, None]

  type Signature = seq<(string, Option<Stat>)>

  /** `file_signature`: what is found at each watched path. */
  function Sign(paths: WatchList, stats: Stats): Signature {
    [(paths[0], stats[0]), (paths[1], stats[1]), (paths[2], stats[2])]
  }

  /** `dict(signature).get(path)`. */
  function StatOf(signature: Signature, path: string): Option<Stat> {
    if signature == [] then None
    else
      var last := signature[|signature| - 1];
      if last.0 == path then last.1 else StatOf(signature[..|signature| - 1], path)
  }

  datatype Problem = InvalidConfig | MissingConfig

  /** A check that is reading the files. */
  datatype Loading = Loading(paths: WatchList, signature: Signature)

  datatype State = State(
    running: Settings,
    baseline: Option<Signature>,
    rejected: Option<Signature>,
    problem: Option<Problem>,
    restartPending: seq<RestartOnly>,
    loading: Option<Loading>)

  /**
   The steps of checks and of other writers. A check awaits a worker thread while it reads the files, so the
   settings may be saved between its two steps; a second check waits for the first.
   */
  datatype Step =
    | StartCheck(stats: Stats)
    | LoadFails
    | Loaded(settings: Settings, stats: Stats)
    | SaveOverrides(settings: Settings)

  function Start(s: State, stats: Stats): State {
    var paths := WatchPaths(s.running);
    var signature := Sign(paths, stats);
    if s.loading.Some? then s
    else if s.baseline.None? then s.(baseline := Some(signature))
    else if Some(signature) == s.baseline then s.(problem := None, rejected := None)
    else if Some(signature) == s.rejected then s
    else if StatOf(s.baseline.value, paths[0]).Some? && StatOf(signature, paths[0]).None? then
      s.(problem := Some(MissingConfig), rejected := Some(signature))
    else s.(loading := Some(Loading(paths, signature)))
  }

  function Finish(s: State, loaded: Settings, stats: Stats): State {
    if s.loading.None? then s
    else
      var check := s.loading.value;
      if Sign(check.paths, stats) != check.signature then s.(loading := None)
      else
        s.(loading := None, baseline := Some(check.signature), rejected := None, problem := None,
           restartPending := RestartOnlyChanges(s.running, loaded), running := WithRunning(s.running, loaded))
  }

  function Next(s: State, step: Step): State {
    match step
    case StartCheck(stats) => Start(s, stats)
    case LoadFails =>
      if s.loading.None? then s
      else s.(loading := None, problem := Some(InvalidConfig), rejected := Some(s.loading.value.signature))
    case Loaded(settings, stats) => Finish(s, settings, stats)
    case SaveOverrides(settings) => s.(running := WithRunning(s.running, settings))
  }

  class ConfigReloader {
    var running: Settings
    var baseline: Option<Signature>
    var rejected: Option<Signature>
    var problem: Option<Problem>
    var restartPending: seq<RestartOnly>
    var loading: Option<Loading>

    constructor (settings: Settings)
      ensures Now() == Unprimed(settings)
    {
      running, baseline, rejected, problem, restartPending, loading := settings, None, None, None, [], None;
    }

    function Now(): State
      reads this
    {
      State(running, baseline, rejected, problem, restartPending, loading)
    }

    method Prime(stats: Stats)
      modifies this`baseline
      ensures baseline == Some(Sign(WatchPaths(running), stats))
    {
      baseline := Some(Sign(WatchPaths(running), stats));
    }

    /** `_check` up to the point where it reads the files; a check that is already reading is waited for. */
    method BeginCheck(stats: Stats)
      modifies this
      ensures Now() == Next(old(Now()), StartCheck(stats))
    {
      if loading.Some? { return; }
      var paths := WatchPaths(running);
      var signature := Sign(paths, stats);
      if baseline.None? {
        baseline := Some(signature);
        return;
      }
      if signature == baseline.value {
        if problem.Some? || rejected.Some? {
          problem, rejected := None, None;
        }
        return;
      }
      if Some(signature) == rejected { return; }
      if StatOf(baseline.value, paths[0]).Some? && StatOf(signature, paths[0]).None? {
        problem, rejected := Some(MissingConfig), Some(signature);
        return;
      }
      loading := Some(Loading(paths, signature));
    }

    method RejectLoad()
      requires loading.Some?
      modifies this
      ensures Now() == Next(old(Now()), LoadFails)
    {
      problem, rejected, loading := Some(InvalidConfig), Some(loading.value.signature), None;
    }

    /** The rest of `_check`, and `_apply`; says whether new settings were installed. */
    method FinishCheck(loaded: Settings, stats: Stats) returns (applied: bool)
      requires loading.Some?
      modifies this
      ensures Now() == Next(old(Now()), Loaded(loaded, stats))
      ensures applied <==> running != old(running)
    {
      var check := loading.value;
      loading := None;
      if Sign(check.paths, stats) != check.signature {
        return false;
      }
      baseline, rejected, problem := Some(check.signature), None, None;
      restartPending := RestartOnlyChanges(running, loaded);
      var effective := WithRunning(running, loaded);
      if effective == running {
        return false;
      }
      running := effective;
      return true;
    }
  }

  // ---------------------------------------------------------------- runs of checks

  function Unprimed(settings: Settings): State {
    State(settings, None, None, None, [], None)
  }

  function Primed(settings: Settings, stats: Stats): State {
    Unprimed(settings).(baseline := Some(Sign(WatchPaths(settings), stats)))
  }

  function Run(s: State, steps: seq<Step>): State {
    if steps == [] then s else Next(Run(s, steps[..|steps| - 1]), steps[|steps| - 1])
  }

  /** The check in flight finds the files as it first saw them. */
  predicate Applies(s: State, step: Step) {
    && step.Loaded? && s.loading.Some?
    && Sign(s.loading.value.paths, step.stats) == s.loading.value.signature
  }

  /** The settings last read into the process, by an applied check or a save; at first the start-up settings. */
  function Installed(s: State, steps: seq<Step>): Settings {
    if steps == [] then s.running
    else
      var rest, last := steps[..|steps| - 1], steps[|steps| - 1];
      if last.SaveOverrides? || Applies(Run(s, rest), last) then last.settings else Installed(s, rest)
  }

  /** The settings the latest applied check read. */
  function Applied(s: State, steps: seq<Step>): Option<Settings> {
    if steps == [] then None
    else
      var rest, last := steps[..|steps| - 1], steps[|steps| - 1];
      if Applies(Run(s, rest), last) then Some(last.settings) else Applied(s, rest)
  }

  predicate Watched(startup: Settings, signature: Signature) {
    |signature| == 3 && forall i | 0 <= i < 3 :: signature[i].0 == WatchPaths(startup)[i]
  }

  predicate Inv(startup: Settings, s: State) {
    && WithRunning(startup, s.running) == s.running
    && (s.problem.Some? <==> s.rejected.Some?)
    && (s.rejected.Some? ==> s.baseline.Some? && s.rejected != s.baseline)
    && (s.baseline.Some? ==> Watched(startup, s.baseline.value))
    && (s.rejected.Some? ==> Watched(startup, s.rejected.value))
    && (s.loading.Some? ==>
          && s.loading.value.paths == WatchPaths(startup) && Watched(startup, s.loading.value.signature)
          && s.baseline.Some? && Some(s.loading.value.signature) != s.baseline
          && Some(s.loading.value.signature) != s.rejected)
  }

  lemma StepKeepsInv(startup: Settings, s: State, step: Step)
    requires Inv(startup, s)
    ensures Inv(startup, Next(s, step))
  {
  }

  /**
   Over any run of checks and saves from start-up: the running settings are exactly the ones last read with
   every restart-only setting at its start-up value, the notice lists exactly the restart-only edits of the latest
   applied check, and a problem is published exactly while a rejected state of the files is remembered.
   */
  lemma {:induction false} ReloadKeepsRestartOnly(startup: Settings, s: State, steps: seq<Step>)
    requires s == Unprimed(startup) || exists stats: Stats :: s == Primed(startup, stats)
    ensures var after := Run(s, steps);
            && Inv(startup, after)
            && after.running == WithRunning(startup, Installed(s, steps))
            && AllSame(startup, after.running) && WatchPaths(after.running) == WatchPaths(startup)
            && after.restartPending
            == match Applied(s, steps) { case None => [] case Some(loaded) => RestartOnlyChanges(startup, loaded) }
  {
    if steps != [] {
      var rest, last := steps[..|steps| - 1], steps[|steps| - 1];
      ReloadKeepsRestartOnly(startup, s, rest);
      StepInstalls(startup, Run(s, rest), last);
    }
    MergedAgrees(startup, Installed(s, steps));
  }

  lemma StepInstalls(startup: Settings, s: State, step: Step)
    requires Inv(startup, s)
    ensures var after := Next(s, step);
            && Inv(startup, after)
            && after.running == (if step.SaveOverrides? || Applies(s, step) then WithRunning(startup, step.settings)
                                 else s.running)
            && after.restartPending
            == if Applies(s, step) then RestartOnlyChanges(startup, step.settings) else s.restartPending
  {
    StepKeepsInv(startup, s, step);
    if Applies(s, step) {
      SameChanges(startup, s.running, step.settings, RESTART_ONLY_SETTINGS);
    }
  }

  lemma {:induction false} SameChanges(startup: Settings, running: Settings, loaded: Settings, keys: seq<RestartOnly>)
    requires WithRunning(startup, running) == running
    ensures Differing(running, loaded, keys) == Differing(startup, loaded, keys)
  {
    if keys != [] {
      SameChanges(startup, running, loaded, keys[..|keys| - 1]);
    }
  }

  /** The check that began with step `j` ended with step `i`, and the files were the same at both. */
  predicate StoodStill(steps: seq<Step>, j: nat, i: nat) {
    && j < i < |steps| && steps[j].StartCheck? && steps[i].Loaded? && steps[j].stats == steps[i].stats
    && forall k | j < k < i :: steps[k].StartCheck? || steps[k].SaveOverrides?
  }

  /** Step `j` began the check that is reading the files. */
  predicate BeganAt(startup: Settings, steps: seq<Step>, loading: Loading, j: nat) {
    && j < |steps| && steps[j].StartCheck? && loading.signature == Sign(WatchPaths(startup), steps[j].stats)
    && forall k | j < k < |steps| :: steps[k].StartCheck? || steps[k].SaveOverrides?
  }

  /** A reading check goes on until it loads or fails, and begins with what the files then are. */
  lemma StepReads(startup: Settings, s: State, step: Step)
    requires Inv(startup, s) && Next(s, step).loading.Some?
    ensures s.loading.Some? ==> Next(s, step).loading == s.loading && (step.StartCheck? || step.SaveOverrides?)
    ensures s.loading.None? ==>
              step.StartCheck? && Next(s, step).loading.value.signature == Sign(WatchPaths(startup), step.stats)
  {
  }

  lemma {:induction false} ReadingBegan(startup: Settings, s: State, steps: seq<Step>)
    requires s == Unprimed(startup) || exists stats: Stats :: s == Primed(startup, stats)
    requires Run(s, steps).loading.Some?
    ensures exists j: nat :: BeganAt(startup, steps, Run(s, steps).loading.value, j)
  {
    var n := |steps| - 1;
    var rest, last := steps[..n], steps[n];
    ReloadKeepsRestartOnly(startup, s, rest);
    StepReads(startup, Run(s, rest), last);
    var before, loading := Run(s, rest), Run(s, steps).loading.value;
    if before.loading.Some? {
      ReadingBegan(startup, s, rest);
      var j: nat :| BeganAt(startup, rest, before.loading.value, j);
      assert BeganAt(startup, steps, loading, j);
    } else {
      assert BeganAt(startup, steps, loading, n);
    }
  }

  /** A check that applies settings found the files as it left them when it began. */
  lemma AppliedFilesStoodStill(startup: Settings, s: State, steps: seq<Step>, i: nat)
    requires s == Unprimed(startup) || exists stats: Stats :: s == Primed(startup, stats)
    requires i < |steps| && Applies(Run(s, steps[..i]), steps[i])
    ensures exists j: nat :: StoodStill(steps, j, i)
  {
    ReloadKeepsRestartOnly(startup, s, steps[..i]);
    ReadingBegan(startup, s, steps[..i]);
    var loading := Run(s, steps[..i]).loading.value;
    var j: nat :| BeganAt(startup, steps[..i], loading, j);
    SignedAlike(WatchPaths(startup), steps[j].stats, steps[i].stats);
    assert StoodStill(steps, j, i);
  }

  lemma SignedAlike(paths: WatchList, a: Stats, b: Stats)
    requires Sign(paths, a) == Sign(paths, b)
    ensures a == b
  {
    assert Sign(paths, a)[0] == Sign(paths, b)[0] && Sign(paths, a)[1] == Sign(paths, b)[1];
    assert Sign(paths, a)[2] == Sign(paths, b)[2];
  }

  /** Some step saved these settings. */
  predicate Saved(steps: seq<Step>, settings: Settings) {
    exists i :: 0 <= i < |steps| && steps[i] == SaveOverrides(settings)
  }

  /** Some check read these settings while the files stood still. */
  ghost predicate ReadStill(steps: seq<Step>, settings: Settings) {
    exists i: nat, j: nat :: StoodStill(steps, j, i) && steps[i].settings == settings
  }

  lemma EarlierStays(steps: seq<Step>, settings: Settings)
    requires steps != []
    ensures Saved(steps[..|steps| - 1], settings) ==> Saved(steps, settings)
    ensures ReadStill(steps[..|steps| - 1], settings) ==> ReadStill(steps, settings)
  {
    var rest := steps[..|steps| - 1];
    if i :| 0 <= i < |rest| && rest[i] == SaveOverrides(settings) {
      assert steps[i] == SaveOverrides(settings);
    }
    if i: nat, j: nat :| StoodStill(rest, j, i) && rest[i].settings == settings {
      assert StoodStill(steps, j, i) && steps[i].settings == settings;
    }
  }

  /**
   Over any run the settings in use were never read from moving files: they are the start-up settings, or a writer
   saved them, or a check read them between two equal sightings of every watched file, with no other read between.
   */
  lemma {:induction false} InstalledFromStillFiles(startup: Settings, s: State, steps: seq<Step>)
    requires s == Unprimed(startup) || exists stats: Stats :: s == Primed(startup, stats)
    ensures var installed := Installed(s, steps);
            installed == startup || Saved(steps, installed) || ReadStill(steps, installed)
  {
    if steps != [] {
      var n := |steps| - 1;
      var rest, last := steps[..n], steps[n];
      if last.SaveOverrides? {
        assert steps[n] == SaveOverrides(Installed(s, steps));
      } else if Applies(Run(s, rest), last) {
        AppliedFilesStoodStill(startup, s, steps, n);
      } else {
        InstalledFromStillFiles(startup, s, rest);
        EarlierStays(steps, Installed(s, rest));
      }
    }
  }
}
