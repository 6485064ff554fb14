# vite-plugin-enumify in Dafny

This project models the Vite plugin `enumify(options)` from
`src/vite-plugin-enumify.ts`. The plugin keeps generated TypeScript enum
bindings in step with a Laravel project. To do that it runs
`php artisan enumify:sync --force --quiet`:

- once when a build starts;
- again, debounced, whenever a watched enum source file changes.

The model has six modules, one `.dfy` file each:

- `Wrappers` holds the `Option` type.
- `ConfigScan` covers the three regular expressions that scrape
  `config/enumify.php`, plus the global item pattern, with `extractString`,
  `extractBoolean` and `extractStringArray`.
  - Each pattern is stated twice: declaratively (`MatchAt`, `FirstMatch`) and
    as a scanner (`CaptureAt`, `Search`, `Exec`). The scanner is proved to find
    exactly the leftmost match.
  - The `while (exec)` loop of `extractStringArray` is a method proved against
    the function `ItemsFrom`.
  - Round-trip lemmas show that a PHP entry written as `'key' => ...` is read
    back.
- `Options` covers `readEnumifyConfig` and `resolveOptions`: an explicit
  option, then the value scraped from the file, then the built-in default,
  each field on its own.
- `Paths` covers POSIX `path.join`, `path.resolve` and `path.relative` on
  segment sequences, with `toAbsolutePath` and `isPathInside`.
  - `isPathInside` is proved to mean "strictly below, with a first segment
    below that does not start with `..`".
- `Regeneration` specifies the regeneration controller as values: the
  single-flight `runSync` loop with its `rerunRequested` flag, and the
  one-timer `debounce`. It proves what runs of events do.
- `VitePlugin` holds the class `Enumify`. Its fields are the plugin
  closure's mutable state: `running`, `rerunRequested`, `initialSyncDone`,
  the debounce deadline, and logs of processes started, directories watched
  and results reported. Its methods are the hooks, and each is proved to move
  the state as the `Regeneration` functions say. Four methods play whole
  runs of the plugin: three mirror `__tests__/vite-plugin.test.ts`, the
  fourth plays a burst of changes against the debounce timer.

Things the model turns into parameters:

- `process.cwd()` becomes the parameter `processCwd`.
- `process.env` becomes `ambientEnv`.
- The file system becomes a map `files` from resolved paths to file text.
  A missing file and an unreadable file are the same: not in the map.
- Time is a logical clock in milliseconds, advanced by `Tick`.
- A sync process exits when its outcome is fed back by `SpawnCompleted(ok)`.

When a sync process fails, `runSync` behaves as follows:

- The rejection of `await spawnSync()` leaves the `do ... while` loop before
  `running = false` is reached, so `running` stays set.
- A rerun that was requested before the failure is never served.
- Every later `runSync` only sets `rerunRequested` and starts nothing.
- `Regeneration.FailureIsPermanent` proves that no process is ever started
  again.

The failure is reported to the caller whose `runSync` started the loop that
is running:

- A loop started by `buildStart` fails the build through `this.error`, in
  serve mode as well.
- A loop started by the debounced watcher only logs the error.

## Model

| member | source | states |
|---|---|---|
| ConfigScan.LowerString | src/vite-plugin-enumify.ts:106 | `toLowerCase()` gives a case variant of the word (same length, same letters up to case) with no upper-case ASCII letter left |
| ConfigScan.SkipSpaces | src/vite-plugin-enumify.ts:69 | `\s*` consumes a run of white space and stops before a non-space |
| ConfigScan.FindQuote | src/vite-plugin-enumify.ts:78 | `[^'"]+` runs to the first quote: none before it, a quote at it (or the end) |
| ConfigScan.HeadEndSound | src/vite-plugin-enumify.ts:68-71 | where the scanner says `['"]key['"]\s*=>\s*` ends, the head really matches and no space follows |
| ConfigScan.HeadEndComplete | src/vite-plugin-enumify.ts:68-71 | every head match that stops before a non-space is the one the scanner finds |
| ConfigScan.QuotedAtIff | src/vite-plugin-enumify.ts:78 | the item scanner captures `v` at `i` exactly when `['"]([^'"]+)['"]` matches there with group `v` |
| ConfigScan.TailAtIff | src/vite-plugin-enumify.ts:69 | the tail scanner captures `cap` exactly when `\[([\s\S]*?)\]`, `['"]([^'"]+)['"]` or `(true\|false)` matches with that group |
| ConfigScan.NotTrueAndFalse | src/vite-plugin-enumify.ts:98 | `true` and `false` never both match at one place, so the alternation's order is immaterial |
| ConfigScan.CaptureAtIff | src/vite-plugin-enumify.ts:67-100 | for each pattern, the scanner's capture at a position is exactly the regular expression's match there (a match at a start position is unique) |
| ConfigScan.SearchFinds | src/vite-plugin-enumify.ts:81 | what a search from `lastIndex` reports is a real match, at or after `lastIndex` |
| ConfigScan.SearchIsLeftmost | src/vite-plugin-enumify.ts:81 | no match starts between `lastIndex` and the reported one |
| ConfigScan.SearchMissesAll | src/vite-plugin-enumify.ts:81 | a search that reports nothing means no match starts at or after `lastIndex` |
| ConfigScan.ExecIsFirstMatch | src/vite-plugin-enumify.ts:68-71 | `exec` reports the leftmost match with its group, and `null` only when the pattern matches nowhere |
| ConfigScan.FirstMatchUnique | src/vite-plugin-enumify.ts:68-71 | the leftmost match and its capture group are unique |
| ConfigScan.ExtractString | src/vite-plugin-enumify.ts:88-95 | a found value is non-empty and holds no quote |
| ConfigScan.ExtractStringMeaning | src/vite-plugin-enumify.ts:88-95 | `extractString` returns the group of the leftmost `'key' => '...'`, and `null` only when there is none |
| ConfigScan.ExtractBoolean | src/vite-plugin-enumify.ts:97-107 | a value is returned exactly when the pattern matches, and it is true exactly when the matched word is a case variant of `true` |
| ConfigScan.ExtractBooleanMeaning | src/vite-plugin-enumify.ts:97-107 | `extractBoolean` is true exactly when the leftmost match's word is a case variant of `true`, and `null` only when there is no match |
| ConfigScan.LowerTrue | src/vite-plugin-enumify.ts:106 | the matched word lower-cases to `"true"` exactly when it is a case variant of `true` |
| ConfigScan.ItemsFrom | src/vite-plugin-enumify.ts:77-83 | every item the global item search collects from `lastIndex` on is non-empty and free of quotes |
| ConfigScan.ItemsStep | src/vite-plugin-enumify.ts:81-82 | one round of the loop pushes the found capture and resumes strictly further on, within the body |
| ConfigScan.CollectItems | src/vite-plugin-enumify.ts:77-83 | the `while` loop over `itemRegex.exec` collects exactly the items `ItemsFrom` gives |
| ConfigScan.StringArrayValue | src/vite-plugin-enumify.ts:85 | a returned array is non-empty and each item is non-empty and quote-free |
| ConfigScan.StringArrayMeaning | src/vite-plugin-enumify.ts:67-86 | the items come from the body of the leftmost `'key' => [...]`; `null` means no such entry, or a body with no item match |
| ConfigScan.ExtractStringArray | src/vite-plugin-enumify.ts:67-86 | the method computes exactly `StringArrayValue` |
| ConfigScan.QuotedMatchShift | src/vite-plugin-enumify.ts:78 | text in front of a quoted item shifts its match and changes nothing else |
| ConfigScan.SearchItemShift | src/vite-plugin-enumify.ts:81 | the item search only looks forward: text in front shifts what it finds |
| ConfigScan.ItemsShift | src/vite-plugin-enumify.ts:77-83 | text in front of the resume position does not change the items collected |
| ConfigScan.SearchSkipsQuoteFree | src/vite-plugin-enumify.ts:78 | quote-free text (such as `, `) is passed over by the item search |
| ConfigScan.ItemsRoundTrip | src/vite-plugin-enumify.ts:77-83 | the body `'a', 'b', ...` of readable items yields exactly those items, in order |
| ConfigScan.ArrayRoundTrip | src/vite-plugin-enumify.ts:67-86 | `'key' => ['a', ...]` followed by anything is read back as its items |
| ConfigScan.StringRoundTrip | src/vite-plugin-enumify.ts:88-95 | `'key' => 'value'` followed by anything is read back as the value |
| ConfigScan.BooleanRoundTrip | src/vite-plugin-enumify.ts:97-107 | `'key' => true` and `'key' => false` followed by anything are read back as the boolean |
| Options.ReadEnumifyConfig | src/vite-plugin-enumify.ts:41-65 | a missing or unreadable file gives the defaults; the enum list is never empty and the output path never `""` |
| Options.ConfigFromFile | src/vite-plugin-enumify.ts:57-61 | each field comes from the file's leftmost entry or falls back to its own default; watching is off exactly when the file's `watch` entry is spelled `false` |
| Options.EnumsEntry | src/vite-plugin-enumify.ts:58 | the enum paths are the items of the leftmost `'enums'` list, or the list is absent or empty |
| Options.WatchFalseIff | src/vite-plugin-enumify.ts:60 | the scraped `watch` is `false` exactly when the leftmost entry is some spelling of `false` |
| Options.ConfigPath | src/vite-plugin-enumify.ts:48 | the config file's path is absolute exactly when `cwd` is |
| Options.ConfigPathBelowCwd | src/vite-plugin-enumify.ts:48 | the config file lies at `config/enumify.php` below `cwd`, an empty `cwd` included |
| Options.ResolveOptions | src/vite-plugin-enumify.ts:21-39 | each resolved field is the explicit option when given and otherwise its own default; `watch` falls back to the file; the file is read under the resolved `cwd` |
| Options.DefaultResolution | src/vite-plugin-enumify.ts:7-9 | without options or config file: `php`, `artisan`, `enumify:sync`, no extra env, watching on, `app/Enums`, `resources/js/enums` |
| Options.WatchPrecedence | src/vite-plugin-enumify.ts:34 | watching is off exactly when `watch: false` is given, or no `watch` option is given and the file says `false` |
| Options.ConfigReadInCwd | src/vite-plugin-enumify.ts:25-26 | an explicit `cwd` replaces the process's when the config file is looked up |
| Paths.Parse | src/vite-plugin-enumify.ts:110 | the `path.normalize` step: the result is absolute exactly when the text is, its segments hold no slash, and a text of plain segments keeps exactly those segments |
| Paths.JoinPath | src/vite-plugin-enumify.ts:110 | `path.join` is absolute exactly when its first non-empty argument is, and its segments hold no slash |
| Paths.SlashFrom | src/vite-plugin-enumify.ts:110 | finds the first `/` at or after a position |
| Paths.SplitPieces | src/vite-plugin-enumify.ts:110 | a path splits into at least one piece, none holding a slash |
| Paths.JoinSplit | src/vite-plugin-enumify.ts:110 | splitting at `/` and joining with `/` gives back the text |
| Paths.SplitJoin | src/vite-plugin-enumify.ts:110 | joining slash-free pieces and splitting gives back the pieces |
| Paths.SplitAround | src/vite-plugin-enumify.ts:110 | the pieces of `a/b` are those of `a` then those of `b` |
| Paths.NormalizeIsNormal | src/vite-plugin-enumify.ts:243 | normalising an absolute path leaves only plain segments (no empty, `.` or `..`) |
| Paths.NormalizePlain | src/vite-plugin-enumify.ts:110 | plain segments are appended unchanged by normalisation |
| Paths.NormalizeAppend | src/vite-plugin-enumify.ts:110 | normalising two runs of pieces is normalising the first and then the second |
| Paths.ToAbsolutePath | src/vite-plugin-enumify.ts:109-111 | an absolute value is kept as its own parsed path; the result is absolute when the value or `cwd` is, and its segments hold no slash |
| Paths.AbsoluteIgnoresCwd | src/vite-plugin-enumify.ts:109-111 | an absolute value does not depend on `cwd` and stays absolute |
| Paths.RelativeLandsBelow | src/vite-plugin-enumify.ts:109-111 | a relative value of plain segments is appended below `cwd`, an empty `cwd` included, and the result is absolute exactly when `cwd` is |
| Paths.Relative | src/vite-plugin-enumify.ts:114 | `path.relative(dir, file)` is what lies past `dir` when `file` is at or below it, and otherwise starts with `..` |
| Paths.Resolve | src/vite-plugin-enumify.ts:243 | `path.resolve` gives normal segments; an absolute path of plain segments resolves to itself, a relative one to the resolved process directory followed by its segments |
| Paths.IsPathInside | src/vite-plugin-enumify.ts:113-119 | a path reported inside a directory lies strictly below it: the resolved directory is a proper prefix of the resolved path |
| Paths.InsideIffBelow | src/vite-plugin-enumify.ts:113-119 | on normal segments, the three-part string test is exactly "strictly below, first segment below not starting with `..`" |
| Paths.IsPathInsideIff | src/vite-plugin-enumify.ts:113-119 | `isPathInside(file, dir)` holds exactly when the resolved file is strictly below the resolved directory, with a first segment below it not starting with `..` |
| Paths.ResolveResolved | src/vite-plugin-enumify.ts:243 | resolving an already resolved path changes nothing |
| Paths.NotInsideItself | src/vite-plugin-enumify.ts:117 | a directory is never inside itself (the relative path is `""`) |
| Paths.DotDotNamedChildIsOutside | src/vite-plugin-enumify.ts:117 | a descendant whose first segment below the directory starts with `..` (`dir/..cache/x`) counts as outside |
| Regeneration.RunSync | src/vite-plugin-enumify.ts:180-190 | while running, a call only sets `rerunRequested` and starts nothing; otherwise it sets `running`, clears the flag and starts one process |
| Regeneration.Settle | src/vite-plugin-enumify.ts:188-196 | on success with a rerun asked for, one more process starts and the flag clears; on success without, `running` clears; on failure the loop is left with `running` still set |
| Regeneration.StepKeepsSingleFlight | src/vite-plugin-enumify.ts:180-197 | every call or exit keeps at most one process in flight, and only while `running` |
| Regeneration.ReplayKeepsSingleFlight | src/vite-plugin-enumify.ts:180-197 | over any sequence of calls and exits, at most one process is ever in flight |
| Regeneration.RerunAfterTrigger | src/vite-plugin-enumify.ts:181-194 | a call during a run causes one more process once the run succeeds |
| Regeneration.CallsCoalesce | src/vite-plugin-enumify.ts:181-184 | any number of calls during a run start nothing and together ask for one rerun |
| Regeneration.FailureIsPermanent | src/vite-plugin-enumify.ts:188-196 | after a failed process, no later call or exit ever starts another, and `running` stays set |
| Regeneration.StuckStays | src/vite-plugin-enumify.ts:181-184 | a loop that is running with nothing in flight stays so under any events |
| Regeneration.SuccessReturnsToRest | src/vite-plugin-enumify.ts:194-196 | a success with no rerun asked for returns the loop to rest |
| Regeneration.Debounce | src/vite-plugin-enumify.ts:127-136 | a call replaces any pending timer by one due `WATCH_DEBOUNCE_MS` (250) later |
| Regeneration.Feed | src/vite-plugin-enumify.ts:121-137 | the wrapped function runs at most once per event, and a run of events ending in a call leaves one timer due 250 ms after that call |
| Regeneration.BurstCoalesces | src/vite-plugin-enumify.ts:121-137 | calls less than 250 ms apart run nothing and leave one timer, due 250 ms after the last |
| Regeneration.BurstFiresOnce | src/vite-plugin-enumify.ts:121-137 | after such a burst the function runs exactly once, 250 ms after the last call, and not before |
| Regeneration.FeedAppend | src/vite-plugin-enumify.ts:121-137 | the timer's run over two stretches of events is the first stretch, then the second from where it left the timer |
| VitePlugin.SyncCommand | src/vite-plugin-enumify.ts:155-167 | the process is `artisanBin` with `[artisanFile, syncCommand, "--force", "--quiet"]` in `cwd`, env the ambient one overridden by the `env` option |
| VitePlugin.EnumDirs | src/vite-plugin-enumify.ts:144-146 | one directory per enum path, in order, each as `toAbsolutePath` gives it: slash-free segments, absolute when its path or `cwd` is, an absolute path kept as itself, a relative path of plain segments appended below `cwd` |
| VitePlugin.ResolvedFile | src/vite-plugin-enumify.ts:243 | `path.resolve(file)` is absolute with normal segments; an absolute file of plain segments keeps them, a relative one lands below the resolved process directory |
| VitePlugin.Schedules | src/vite-plugin-enumify.ts:238-255 | a change that is picked up has watching on and lies strictly below some enum directory |
| VitePlugin.SchedulesIff | src/vite-plugin-enumify.ts:238-255 | a change is picked up exactly when watching is on, the file is not below the output directory, and it is below some enum directory |
| VitePlugin.Enumify.constructor | src/vite-plugin-enumify.ts:142-153 | the options are resolved once, the directories made absolute and the command fixed; the controller starts at rest with nothing scheduled |
| VitePlugin.Enumify.ConfigResolved | src/vite-plugin-enumify.ts:209-212 | the Vite command is remembered |
| VitePlugin.Enumify.RunSync | src/vite-plugin-enumify.ts:180-190 | the state moves as `Regeneration.RunSync`; a process is started (and the caller becomes the owner) only when not running |
| VitePlugin.Enumify.SpawnCompleted | src/vite-plugin-enumify.ts:188-203 | the state moves as `Regeneration.Settle`; success is logged, failure is a build error when `buildStart` started the loop and a logged error otherwise |
| VitePlugin.Enumify.BuildStart | src/vite-plugin-enumify.ts:214-226 | in serve mode only the first call syncs, and `initialSyncDone` is set before it runs; in any other mode every call syncs |
| VitePlugin.Enumify.ConfigureServer | src/vite-plugin-enumify.ts:228-236 | with watching on, every enum directory goes to the watcher in order; with it off, none |
| VitePlugin.Enumify.InsideEnumDir | src/vite-plugin-enumify.ts:249-254 | the loop finds the file inside some enum directory exactly when one exists |
| VitePlugin.Enumify.HandleHotUpdate | src/vite-plugin-enumify.ts:238-255 | a change that `Schedules` resets the timer to 250 ms ahead and calls the debounced sync once; any other change does nothing |
| VitePlugin.Enumify.Tick | src/vite-plugin-enumify.ts:132-135 | a due timer is cleared and runs `runSync` from the watcher; otherwise only the clock moves |
| VitePlugin.BuildWithDefaults | __tests__/vite-plugin.test.ts:59-76 | a build with only `cwd` starts `php artisan enumify:sync --force --quiet` once, in `cwd` |
| VitePlugin.BuildOn | src/vite-plugin-enumify.ts:214-226 | a build on a plugin that has run nothing starts its command exactly once |
| VitePlugin.ServeAndWatch | __tests__/vite-plugin.test.ts:78-104 | a dev server watches every configured enum directory when watching is on, and none otherwise |
| VitePlugin.ChangeThenWait | __tests__/vite-plugin.test.ts:106-134 | one change and 300 ms of quiet start exactly one process when the change `Schedules`, and none otherwise |
| VitePlugin.ChangeThenWaitOn | src/vite-plugin-enumify.ts:238-255 | the same, on a plugin that has started and scheduled nothing yet |
| VitePlugin.BurstThenWait | src/vite-plugin-enumify.ts:121-137 | three changes 100 ms apart on a dev server start nothing up to 449 ms, and exactly one process at 450 ms when the change `Schedules` |
| VitePlugin.BurstThenWaitOn | src/vite-plugin-enumify.ts:238-255 | the same, on a plugin that has started and scheduled nothing yet |

## Left out

- Process plumbing is left out: `child_process.spawn`, stdio inheritance, the
  `error`/`close` events and exit codes. A process is the `Command` it is
  started with, and its outcome arrives as `SpawnCompleted(ok)`.
- `fs.existsSync` and `readFileSync` are not modelled: the readable files are
  a map, and a missing file and an unreadable one are alike.
- `setTimeout` and `clearTimeout` are replaced by a logical clock and one
  deadline. Promise scheduling is replaced by explicit exit events.
- Parts of the Vite host are left out: the `Plugin` object's `name` and
  `enforce`, the logger, and the text of log and error messages. Reports are
  only `Generated`, `BuildError` or `LoggedError`.
- Windows paths and drive letters are not modelled, nor the cross-drive case
  in which `path.relative` returns an absolute path. Paths are POSIX.
- Paths.Parse: drops a trailing slash, which `path.join` and
  `path.normalize` keep. `isPathInside` resolves both paths first, so there it
  makes no difference. `configureServer` (src/vite-plugin-enumify.ts:233-234)
  hands the watcher the unresolved string instead, which may end in `/`; the
  model records the normalised path in `watched`.
- Paths.ToAbsolutePath: normalises an absolute value, where the source
  returns it verbatim. `isPathInside` resolves it first, so there it makes no
  difference; the watcher gets the verbatim string from `configureServer`
  (src/vite-plugin-enumify.ts:233-234), while the model records the
  normalised path in `watched`.
- The key is matched literally. The source puts it into the pattern without
  escaping, which coincides for the letter-only keys it uses.
- Case folding under the `i` flag is ASCII-only. The patterns it applies to
  are ASCII.
- Options.ResolveOptions: its contract lists each field's value; what those
  values mean is proved by `DefaultResolution`, `WatchPrecedence`,
  `ConfigReadInCwd` and `ConfigFromFile`.
- VitePlugin.Enumify.SpawnCompleted: requires a process in flight. An exit
  event without one cannot occur in the source.
