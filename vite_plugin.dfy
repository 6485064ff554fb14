/** The plugin object `enumify(options)` returns, with the state its hooks
    share: `running`, `rerunRequested`, `initialSyncDone`, the debounce
    timer, and what the plugin asks of the outside world (sync processes
    started, directories handed to the watcher, results reported). */
module VitePlugin {
  import opened Wrappers
  import opened Options
  import opened Paths
  import Regeneration

  /** `viteConfig.command`. */
  datatype ViteCommand = Serve | Build

  /** A sync process as started: program, arguments, working directory and environment. */
  datatype Command = Command(bin: string, args: seq<string>, cwd: string, env: map<string, string>)

  /** Who started the running loop, and so who hears of its failure:
      `buildStart` fails the build, the watcher only logs. */
  datatype Caller = BuildStartHook | DebouncedWatch

  /** What the plugin reports: a successful run is logged, a failed one
      becomes a build error or a logged error. */
  datatype Report = Generated | BuildError | LoggedError

  /** The process `spawnSync` starts: `<artisanBin> <artisanFile> <syncCommand>
      --force --quiet` in the resolved `cwd`, with the process environment
      overridden by the `env` option. */
  function SyncCommand(resolved: ResolvedEnumifyOptions, ambientEnv: map<string, string>): (c: Command)
    ensures c.bin == resolved.artisanBin && c.cwd == resolved.cwd
    ensures c.args == [resolved.artisanFile, resolved.syncCommand, "--force", "--quiet"]
    ensures c.env.Keys == ambientEnv.Keys + resolved.env.Keys
    ensures forall k :: k in resolved.env ==> c.env[k] == resolved.env[k]
    ensures forall k :: k in ambientEnv && k !in resolved.env ==> c.env[k] == ambientEnv[k]
  {
    Command(resolved.artisanBin, [resolved.artisanFile, resolved.syncCommand, "--force", "--quiet"],
            resolved.cwd, ambientEnv + resolved.env)
  }

  /** `d` is what `toAbsolutePath(cwd, value)` gives: slash-free segments,
      absolute when `value` or `cwd` is, `value` itself when that is
      absolute, and a relative `value` of plain segments appended below
      `cwd`. */
  predicate MadeAbsolute(cwd: string, value: string, d: PathName) {
    NoSlash(d.segs)
    && d.absolute == (IsAbsolute(value) || IsAbsolute(cwd))
    && (IsAbsolute(value) ==> d == Parse(value))
    && (!IsAbsolute(value) && Normal(Split(value)) ==> d.segs == Parse(cwd).segs + Split(value))
  }

  /** The enum directories, each made absolute against the resolved `cwd`. */
  function EnumDirs(cwd: string, enumPaths: seq<string>): (r: seq<PathName>)
    ensures |r| == |enumPaths|
    ensures forall k :: 0 <= k < |r| ==> MadeAbsolute(cwd, enumPaths[k], r[k])
  {
    var r := seq(|enumPaths|, k requires 0 <= k < |enumPaths| => ToAbsolutePath(cwd, enumPaths[k]));
    assert forall k :: 0 <= k < |r| ==> MadeAbsolute(cwd, enumPaths[k], r[k]) by {
      forall k | 0 <= k < |r|
        ensures MadeAbsolute(cwd, enumPaths[k], r[k])
      {
        if !IsAbsolute(enumPaths[k]) && Normal(Split(enumPaths[k])) {
          RelativeLandsBelow(cwd, enumPaths[k]);
        }
      }
    }
    r
  }

  /** `path.resolve(file)`: always absolute with normal segments; a path of
      plain segments keeps them, below the process directory when relative. */
  function ResolvedFile(processCwd: string, file: string): (r: PathName)
    ensures r.absolute && Normal(r.segs)
    ensures IsAbsolute(file) && Normal(Parse(file).segs) ==> r.segs == Parse(file).segs
    ensures !IsAbsolute(file) && Normal(Split(file)) ==> r.segs == Normalize(true, [], Split(processCwd)) + Split(file)
  {
    PathName(true, Resolve(processCwd, Parse(file)))
  }

  /** Whether `handleHotUpdate` calls the debounced sync for a change to
      `file`: watching is on, the file is not inside the output directory,
      and it is inside at least one enum directory. */
  predicate Schedules(watch: bool, processCwd: string, outputDir: PathName, enumDirs: seq<PathName>, file: string)
    ensures Schedules(watch, processCwd, outputDir, enumDirs, file) ==>
              watch && exists k :: 0 <= k < |enumDirs| && Descends(Resolve(processCwd, Parse(file)), Resolve(processCwd, enumDirs[k]))
  {
    ResolveResolved(processCwd, Parse(file));
    var f := ResolvedFile(processCwd, file);
    watch && !IsPathInside(processCwd, f, outputDir)
    && exists k :: 0 <= k < |enumDirs| && IsPathInside(processCwd, f, enumDirs[k])
  }

  /** On resolved segments: a change is picked up exactly when watching is
      on, the file is not strictly below the output directory, and it is
      strictly below some enum directory (in both cases with a first segment
      below it that does not start with `..`). */
  lemma SchedulesIff(watch: bool, processCwd: string, outputDir: PathName, enumDirs: seq<PathName>, file: string)
    requires NoSlash(outputDir.segs) && forall k :: 0 <= k < |enumDirs| ==> NoSlash(enumDirs[k].segs)
    ensures var f := Resolve(processCwd, Parse(file));
            Schedules(watch, processCwd, outputDir, enumDirs, file)
            <==> watch && !StrictlyBelow(f, Resolve(processCwd, outputDir))
                 && exists k :: 0 <= k < |enumDirs| && StrictlyBelow(f, Resolve(processCwd, enumDirs[k]))
  {
    var file' := ResolvedFile(processCwd, file);
    ResolveResolved(processCwd, Parse(file));
    NormalizeNoSlash(true, [], Resolve(processCwd, Parse(file)));
    assert NoSlash(file'.segs) by {
      forall k | 0 <= k < |file'.segs| ensures '/' !in file'.segs[k] {
        assert Plain(file'.segs[k]);
      }
    }
    IsPathInsideIff(processCwd, file', outputDir);
    forall k | 0 <= k < |enumDirs|
      ensures IsPathInside(processCwd, file', enumDirs[k])
              <==> StrictlyBelow(Resolve(processCwd, Parse(file)), Resolve(processCwd, enumDirs[k]))
    {
      IsPathInsideIff(processCwd, file', enumDirs[k]);
    }
  }

  class Enumify {
    const processCwd: string
    const resolved: ResolvedEnumifyOptions
    const config: EnumifyConfig
    const enumDirs: seq<PathName>
    const outputDir: PathName
    /** The process every run starts. */
    const command: Command

    /** `viteConfig?.command`, `None` until `configResolved` is called. */
    var viteCommand: Option<ViteCommand>
    var running: bool
    var rerunRequested: bool
    var initialSyncDone: bool
    /** The caller whose `runSync` started the loop now running. */
    var owner: Caller
    /** The deadline of the pending debounce timer (`timeoutId`). */
    var timeout: Option<nat>
    /** The time, in milliseconds, on a logical clock. */
    var clock: nat
    var spawned: seq<Command>
    var watched: seq<PathName>
    var reports: seq<Report>
    /** Sync processes started and not yet exited. */
    ghost var inFlight: nat
    /** Calls of the debounced function so far. */
    ghost var debounced: nat

    /** The controller's state as the loop specification sees it. */
    ghost function Loop(): Regeneration.Loop
      reads this
    {
      Regeneration.Loop(running, rerunRequested, inFlight, |spawned|)
    }

    ghost predicate Valid()
      reads this
    {
      Regeneration.SingleFlight(Loop())
      && (timeout.Some? ==> clock < timeout.value)
      && forall k :: 0 <= k < |spawned| ==> spawned[k] == command
    }

    /** `enumify(options)`: `processCwd`, `files` and `ambientEnv` stand for
        `process.cwd()`, the readable files and `process.env`. */
    constructor (options: EnumifyOptions, processCwd: string, files: map<seq<string>, string>,
                 ambientEnv: map<string, string>)
      ensures var r := ResolveOptions(options, processCwd, files);
              resolved == r.options && config == r.config
      ensures this.processCwd == processCwd
      ensures enumDirs == EnumDirs(resolved.cwd, config.enumPaths)
      ensures outputDir == ToAbsolutePath(resolved.cwd, config.outputPath)
      ensures command == SyncCommand(resolved, ambientEnv)
      ensures Valid() && Loop() == Regeneration.Idle()
      ensures viteCommand.None? && !initialSyncDone && timeout.None? && clock == 0
      ensures watched == [] && reports == [] && debounced == 0
    {
      viteCommand := None;
      running, rerunRequested, initialSyncDone := false, false, false;
      owner := BuildStartHook;
      timeout, clock := None, 0;
      spawned, watched, reports := [], [], [];
      inFlight, debounced := 0, 0;
      var r := ResolveOptions(options, processCwd, files);
      this.processCwd := processCwd;
      resolved := r.options;
      config := r.config;
      enumDirs := EnumDirs(r.options.cwd, r.config.enumPaths);
      outputDir := ToAbsolutePath(r.options.cwd, r.config.outputPath);
      command := SyncCommand(r.options, ambientEnv);
    }

    /** `configResolved`: remember the command Vite runs. */
    method ConfigResolved(cmd: ViteCommand)
      modifies this`viteCommand
      ensures viteCommand == Some(cmd)
    {
      viteCommand := Some(cmd);
    }

    /** `runSync` up to its first `await`: coalesce into the running loop, or
        start a loop and its first process. */
    method RunSync(who: Caller)
      requires Valid()
      modifies this`running, this`rerunRequested, this`owner, this`spawned, this`inFlight
      ensures Valid()
      ensures Loop() == Regeneration.RunSync(old(Loop()))
      ensures spawned == old(spawned) + (if old(running) then [] else [command])
      ensures owner == if old(running) then old(owner) else who
    {
      if running {
        rerunRequested := true;
        return;
      }
      running := true;
      owner := who;
      rerunRequested := false;
      spawned := spawned + [command];
      inFlight := inFlight + 1;
    }

    /** The process in flight exits: the loop resumes after its `await`. */
    method SpawnCompleted(ok: bool)
      requires Valid() && inFlight == 1
      modifies this`running, this`rerunRequested, this`spawned, this`inFlight, this`reports
      ensures Valid()
      ensures Loop() == Regeneration.Settle(old(Loop()), ok)
      ensures spawned == old(spawned) + (if ok && old(rerunRequested) then [command] else [])
      ensures reports == old(reports) + [if ok then Generated
                                         else if owner == BuildStartHook then BuildError
                                         else LoggedError]
    {
      if !ok {
        inFlight := inFlight - 1;
        reports := reports + [if owner == BuildStartHook then BuildError else LoggedError];
        return;
      }
      reports := reports + [Generated];
      if rerunRequested {
        rerunRequested := false;
        spawned := spawned + [command];
      } else {
        running := false;
        inFlight := inFlight - 1;
      }
    }

    /** `buildStart`: in serve mode only the first call syncs; otherwise
        (build mode, or no resolved config yet) every call does. */
    method BuildStart()
      requires Valid()
      modifies this`initialSyncDone, this`running, this`rerunRequested, this`owner, this`spawned, this`inFlight
      ensures Valid()
      ensures initialSyncDone == (old(initialSyncDone) || viteCommand == Some(Serve))
      ensures var runs := viteCommand != Some(Serve) || !old(initialSyncDone);
              Loop() == (if runs then Regeneration.RunSync(old(Loop())) else old(Loop()))
              && spawned == old(spawned) + (if runs && !old(running) then [command] else [])
              && owner == (if runs && !old(running) then BuildStartHook else old(owner))
    {
      if viteCommand == Some(Serve) {
        if initialSyncDone {
          return;
        }
        initialSyncDone := true;
      }
      RunSync(BuildStartHook);
    }

    /** `configureServer`: with watching on, every enum directory is handed
        to the watcher, in order; with it off, none is. */
    method ConfigureServer()
      modifies this`watched
      ensures watched == old(watched) + (if resolved.watch then enumDirs else [])
    {
      if !resolved.watch {
        return;
      }
      var i := 0;
      while i < |enumDirs|
        invariant 0 <= i <= |enumDirs|
        invariant watched == old(watched) + enumDirs[..i]
      {
        watched := watched + [enumDirs[i]];
        i := i + 1;
      }
    }

    /** The loop of `handleHotUpdate` over the enum directories: whether
        `filePath` lies inside one of them. */
    method InsideEnumDir(filePath: PathName) returns (found: bool)
      ensures found <==> exists k :: 0 <= k < |enumDirs| && IsPathInside(processCwd, filePath, enumDirs[k])
    {
      var i := 0;
      while i < |enumDirs|
        invariant 0 <= i <= |enumDirs|
        invariant forall j :: 0 <= j < i ==> !IsPathInside(processCwd, filePath, enumDirs[j])
      {
        var inside := IsPathInside(processCwd, filePath, enumDirs[i]);
        if inside {
          return true;
        }
        i := i + 1;
      }
      return false;
    }

    /** `handleHotUpdate`: a change calls the debounced sync once when it
        `Schedules`, and does nothing otherwise. */
    method HandleHotUpdate(file: string)
      requires Valid()
      modifies this`timeout, this`debounced
      ensures Valid()
      ensures var go := Schedules(resolved.watch, processCwd, outputDir, enumDirs, file);
              timeout == (if go then Regeneration.Debounce(old(timeout), clock) else old(timeout))
              && debounced == old(debounced) + (if go then 1 else 0)
    {
      if !resolved.watch {
        return;
      }
      var filePath := ResolvedFile(processCwd, file);
      if IsPathInside(processCwd, filePath, outputDir) {
        return;
      }
      var found := InsideEnumDir(filePath);
      if found {
        timeout := Regeneration.Debounce(timeout, clock);
        debounced := debounced + 1;
      }
    }

    /** The clock advances to `now`; a due timer runs the debounced sync. */
    method Tick(now: nat)
      requires Valid() && clock <= now
      modifies this`clock, this`timeout, this`running, this`rerunRequested, this`owner, this`spawned, this`inFlight
      ensures Valid() && clock == now
      ensures var due := Regeneration.Due(old(timeout), now);
              timeout == (if due then None else old(timeout))
              && Loop() == (if due then Regeneration.RunSync(old(Loop())) else old(Loop()))
              && spawned == old(spawned) + (if due && !old(running) then [command] else [])
              && owner == (if due && !old(running) then DebouncedWatch else old(owner))
    {
      clock := now;
      if timeout.Some? && timeout.value <= now {
        timeout := None;
        RunSync(DebouncedWatch);
      }
    }
  }

  // ---------------------------------------------------------------------------
  // Whole runs of the plugin

  /** A build with only `cwd` given and no config file runs
      `php artisan enumify:sync --force --quiet` once, in that directory. */
  method BuildWithDefaults(cwd: string, processCwd: string, files: map<seq<string>, string>,
                           ambientEnv: map<string, string>) returns (spawned: seq<Command>)
    requires Resolve(processCwd, ConfigPath(cwd)) !in files
    ensures spawned == [Command("php", ["artisan", "enumify:sync", "--force", "--quiet"], cwd, ambientEnv)]
  {
    var plugin := new Enumify(NoOptions().(cwd := Some(cwd)), processCwd, files, ambientEnv);
    assert plugin.resolved.env == map[] && ambientEnv + map[] == ambientEnv;
    spawned := BuildOn(plugin);
  }

  /** A build on a plugin that has not run anything yet starts its command once. */
  method BuildOn(plugin: Enumify) returns (spawned: seq<Command>)
    requires plugin.Valid() && !plugin.running && plugin.spawned == []
    modifies plugin
    ensures spawned == [plugin.command]
  {
    plugin.ConfigResolved(Build);
    plugin.BuildStart();
    spawned := plugin.spawned;
  }

  /** A dev server hands every configured enum directory to the watcher,
      made absolute against `cwd`, when watching is on, and none otherwise. */
  method ServeAndWatch(options: EnumifyOptions, processCwd: string, files: map<seq<string>, string>,
                       ambientEnv: map<string, string>) returns (watched: seq<PathName>)
    ensures var r := ResolveOptions(options, processCwd, files);
            watched == if r.options.watch then EnumDirs(r.options.cwd, r.config.enumPaths) else []
  {
    var plugin := new Enumify(options, processCwd, files, ambientEnv);
    plugin.ConfigResolved(Serve);
    plugin.ConfigureServer();
    watched := plugin.watched;
  }

  /** On a dev server, one change to `file` followed by 300 ms of quiet
      starts one sync process when the change `Schedules` and none otherwise. */
  method ChangeThenWait(options: EnumifyOptions, processCwd: string, files: map<seq<string>, string>,
                        ambientEnv: map<string, string>, file: string) returns (spawned: seq<Command>)
    ensures var r := ResolveOptions(options, processCwd, files);
            var outputDir := ToAbsolutePath(r.options.cwd, r.config.outputPath);
            var enumDirs := EnumDirs(r.options.cwd, r.config.enumPaths);
            spawned == if Schedules(r.options.watch, processCwd, outputDir, enumDirs, file)
                       then [SyncCommand(r.options, ambientEnv)] else []
  {
    var plugin := new Enumify(options, processCwd, files, ambientEnv);
    plugin.ConfigResolved(Serve);
    spawned := ChangeThenWaitOn(plugin, file);
  }

  /** The same on a plugin that has not run or scheduled anything yet. */
  method ChangeThenWaitOn(plugin: Enumify, file: string) returns (spawned: seq<Command>)
    requires plugin.Valid() && !plugin.running && plugin.spawned == []
    requires plugin.timeout.None? && plugin.clock == 0
    modifies plugin
    ensures spawned == if Schedules(plugin.resolved.watch, plugin.processCwd, plugin.outputDir, plugin.enumDirs, file)
                       then [plugin.command] else []
  {
    ghost var go := Schedules(plugin.resolved.watch, plugin.processCwd, plugin.outputDir, plugin.enumDirs, file);
    plugin.HandleHotUpdate(file);
    assert plugin.timeout == if go then Some(Regeneration.WatchDebounceMs) else None;
    plugin.Tick(300);
    spawned := plugin.spawned;
  }

  /** Three changes to the same file 100 ms apart on a dev server: each one
      pushes the timer back, so nothing starts up to 449 ms, and exactly one
      process starts at 450 ms, 250 ms after the last change, when the change
      `Schedules`. */
  method BurstThenWait(options: EnumifyOptions, processCwd: string, files: map<seq<string>, string>,
                       ambientEnv: map<string, string>, file: string) returns (early: seq<Command>, spawned: seq<Command>)
    ensures early == []
    ensures var r := ResolveOptions(options, processCwd, files);
            var outputDir := ToAbsolutePath(r.options.cwd, r.config.outputPath);
            var enumDirs := EnumDirs(r.options.cwd, r.config.enumPaths);
            spawned == if Schedules(r.options.watch, processCwd, outputDir, enumDirs, file)
                       then [SyncCommand(r.options, ambientEnv)] else []
  {
    var plugin := new Enumify(options, processCwd, files, ambientEnv);
    plugin.ConfigResolved(Serve);
    early, spawned := BurstThenWaitOn(plugin, file);
  }

  /** The same on a plugin that has not run or scheduled anything yet. */
  method BurstThenWaitOn(plugin: Enumify, file: string) returns (early: seq<Command>, spawned: seq<Command>)
    requires plugin.Valid() && !plugin.running && plugin.spawned == []
    requires plugin.timeout.None? && plugin.clock == 0
    modifies plugin
    ensures early == []
    ensures spawned == if Schedules(plugin.resolved.watch, plugin.processCwd, plugin.outputDir, plugin.enumDirs, file)
                       then [plugin.command] else []
  {
    ghost var go := Schedules(plugin.resolved.watch, plugin.processCwd, plugin.outputDir, plugin.enumDirs, file);
    plugin.HandleHotUpdate(file);
    assert plugin.timeout == if go then Some(250) else None;
    plugin.Tick(100);
    assert plugin.spawned == [] && !plugin.running;
    plugin.HandleHotUpdate(file);
    assert plugin.timeout == if go then Some(350) else None;
    plugin.Tick(200);
    assert plugin.spawned == [] && !plugin.running;
    plugin.HandleHotUpdate(file);
    assert plugin.timeout == if go then Some(450) else None;
    plugin.Tick(449);
    early := plugin.spawned;
    plugin.Tick(450);
    spawned := plugin.spawned;
  }
}
