/** Option resolution: the plugin's options, each falling back to a value read
    from the Laravel `config/enumify.php` file and then to a built-in default. */
module Options {
  import opened Wrappers
  import opened ConfigScan
  import Paths

  const DefaultEnumPaths: seq<string> := ["app/Enums"]
  const DefaultOutputPath: string := "resources/js/enums"
  const DefaultWatch: bool := true

  const DefaultArtisanBin: string := "php"
  const DefaultArtisanFile: string := "artisan"
  const DefaultSyncCommand: string := "enumify:sync"

  /** The options a user passes to `enumify(...)`; every field may be left out. */
  datatype EnumifyOptions = EnumifyOptions(
    artisanBin: Option<string>,
    artisanFile: Option<string>,
    syncCommand: Option<string>,
    cwd: Option<string>,
    watch: Option<bool>,
    env: Option<map<string, string>>)

  /** `enumify()` called without options (or with `{}`). */
  function NoOptions(): EnumifyOptions {
    EnumifyOptions(None, None, None, None, None, None)
  }

  /** The options once every field has a value. */
  datatype ResolvedEnumifyOptions = ResolvedEnumifyOptions(
    artisanBin: string,
    artisanFile: string,
    syncCommand: string,
    cwd: string,
    watch: bool,
    env: map<string, string>)

  /** What the plugin reads from `config/enumify.php`. */
  datatype EnumifyConfig = EnumifyConfig(enumPaths: seq<string>, outputPath: string, watch: bool)

  function Defaults(): EnumifyConfig {
    EnumifyConfig(DefaultEnumPaths, DefaultOutputPath, DefaultWatch)
  }

  /** The first `'key' => [...]` entry of `contents` lists `items`, and there is at least one. */
  ghost predicate ListEntry(contents: string, key: string, items: seq<string>) {
    exists i, body :: FirstMatch(contents, Keyed(key, BracketBody), i, body)
                      && items == ItemsFrom(body, 0) && |items| > 0
  }

  /** No `'key' => [...]` entry, or the first one lists no item. */
  ghost predicate NoListItems(contents: string, key: string) {
    forall i, body :: FirstMatch(contents, Keyed(key, BracketBody), i, body) ==> ItemsFrom(body, 0) == []
  }

  /** The first `'key' => '...'` entry of `contents` holds `v`. */
  ghost predicate StringEntry(contents: string, key: string, v: string) {
    exists i :: FirstMatch(contents, Keyed(key, QuotedValue), i, v)
  }

  ghost predicate NoEntry(contents: string, key: string, tail: Tail) {
    forall i, v :: !MatchAt(contents, Keyed(key, tail), i, v)
  }

  /** The first `'key' => true|false` entry of `contents` is some spelling of `false`. */
  ghost predicate SaysFalse(contents: string, key: string) {
    exists i, w :: FirstMatch(contents, Keyed(key, TrueOrFalse), i, w) && !CaseVariant(w, "true")
  }

  /** `readEnumifyConfig`: `contents` is the text of `config/enumify.php`, or
      `None` when the file is missing or cannot be read. `ConfigFromFile`
      says where each field comes from. */
  function ReadEnumifyConfig(contents: Option<string>): (r: EnumifyConfig)
    ensures contents.None? ==> r == Defaults()
    ensures |r.enumPaths| > 0 && r.outputPath != ""
  {
    match contents
    case None => Defaults()
    case Some(text) =>
      EnumifyConfig(
        StringArrayValue(text, "enums").GetOr(DefaultEnumPaths),
        ExtractString(text, "output").GetOr(DefaultOutputPath),
        ExtractBoolean(text, "watch").GetOr(DefaultWatch))
  }

  /** Each field is taken from the file when its entry is there and falls
      back to its default on its own otherwise; watching is off exactly when
      the file's first `watch` entry is spelled `false`. */
  lemma ConfigFromFile(contents: Option<string>)
    ensures var r := ReadEnumifyConfig(contents);
            contents.Some? ==>
              ListEntry(contents.value, "enums", r.enumPaths)
              || (NoListItems(contents.value, "enums") && r.enumPaths == DefaultEnumPaths)
    ensures var r := ReadEnumifyConfig(contents);
            contents.Some? ==>
              StringEntry(contents.value, "output", r.outputPath)
              || (NoEntry(contents.value, "output", QuotedValue) && r.outputPath == DefaultOutputPath)
    ensures !ReadEnumifyConfig(contents).watch <==> contents.Some? && SaysFalse(contents.value, "watch")
  {
    if contents.Some? {
      WatchFalseIff(contents.value, "watch");
      EnumsEntry(contents.value);
      ExtractStringMeaning(contents.value, "output");
    }
  }

  lemma EnumsEntry(text: string)
    ensures StringArrayValue(text, "enums").Some? ==> ListEntry(text, "enums", StringArrayValue(text, "enums").value)
    ensures StringArrayValue(text, "enums").None? ==> NoListItems(text, "enums")
  {
    var r := StringArrayValue(text, "enums");
    var p := Keyed("enums", BracketBody);
    StringArrayMeaning(text, "enums");
    if r.None? {
      forall i, body | FirstMatch(text, p, i, body) ensures ItemsFrom(body, 0) == [] {
        if exists i', body' :: FirstMatch(text, p, i', body') && forall j, v :: !MatchAt(body', Item, j, v) {
          var i', body' :| FirstMatch(text, p, i', body') && forall j, v :: !MatchAt(body', Item, j, v);
          FirstMatchUnique(text, p, i, body, i', body');
          NoMatchNoItems(body');
        }
      }
    }
  }

  /** A body in which the item pattern never matches yields no items. */
  lemma NoMatchNoItems(body: string)
    requires forall j, v :: !MatchAt(body, Item, j, v)
    ensures ItemsFrom(body, 0) == []
  {
    SearchFinds(body, Item, 0);
  }

  /** The boolean reads `false` exactly when the first entry is spelled `false`. */
  lemma WatchFalseIff(text: string, key: string)
    ensures ExtractBoolean(text, key) == Some(false) <==> SaysFalse(text, key)
  {
    var p := Keyed(key, TrueOrFalse);
    ExtractBooleanMeaning(text, key);
    if SaysFalse(text, key) {
      var i, w :| FirstMatch(text, p, i, w) && !CaseVariant(w, "true");
      var r := ExtractBoolean(text, key);
      assert r.Some?;
      var i', w' :| FirstMatch(text, p, i', w') && (r.value <==> CaseVariant(w', "true"));
      FirstMatchUnique(text, p, i, w, i', w');
    }
  }

  /** Where `readEnumifyConfig(cwd)` looks: `path.join(cwd, "config", "enumify.php")`. */
  function ConfigPath(cwd: string): (r: Paths.PathName)
    ensures r.absolute == Paths.IsAbsolute(cwd)
  {
    Paths.JoinPath(cwd, "config/enumify.php")
  }

  /** The config file lies at `config/enumify.php` below `cwd`, whatever
      `cwd` is (for `""`, below the current directory). */
  lemma ConfigPathBelowCwd(cwd: string)
    ensures ConfigPath(cwd).segs == Paths.Parse(cwd).segs + ["config", "enumify.php"]
  {
    var name := "config/enumify.php";
    assert name == Paths.Join(["config", "enumify.php"]);
    Paths.SplitJoin(["config", "enumify.php"]);
    assert Paths.Normal(["config", "enumify.php"]) by {
      assert Paths.Plain("config") && Paths.Plain("enumify.php");
    }
    Paths.RelativeLandsBelow(cwd, name);
  }

  /** The result of `resolveOptions`: the resolved options and the config read. */
  datatype Resolution = Resolution(options: ResolvedEnumifyOptions, config: EnumifyConfig)

  /** `resolveOptions`: `processCwd` stands for `process.cwd()` and `files`
      for the readable files, by resolved path. An explicit option always
      wins; `watch` falls back to the config file's value and the others to
      their defaults. */
  function ResolveOptions(options: EnumifyOptions, processCwd: string, files: map<seq<string>, string>): (r: Resolution)
    ensures r.options.cwd == options.cwd.GetOr(processCwd)
    ensures var file := Paths.Resolve(processCwd, ConfigPath(r.options.cwd));
            r.config == ReadEnumifyConfig(if file in files then Some(files[file]) else None)
    ensures options.artisanBin.Some? ==> r.options.artisanBin == options.artisanBin.value
    ensures options.artisanBin.None? ==> r.options.artisanBin == DefaultArtisanBin
    ensures options.artisanFile.Some? ==> r.options.artisanFile == options.artisanFile.value
    ensures options.artisanFile.None? ==> r.options.artisanFile == DefaultArtisanFile
    ensures options.syncCommand.Some? ==> r.options.syncCommand == options.syncCommand.value
    ensures options.syncCommand.None? ==> r.options.syncCommand == DefaultSyncCommand
    ensures options.watch.Some? ==> r.options.watch == options.watch.value
    ensures options.watch.None? ==> r.options.watch == r.config.watch
    ensures options.env.Some? ==> r.options.env == options.env.value
    ensures options.env.None? ==> r.options.env == map[]
  {
    var cwd := options.cwd.GetOr(processCwd);
    var file := Paths.Resolve(processCwd, ConfigPath(cwd));
    var config := ReadEnumifyConfig(if file in files then Some(files[file]) else None);
    Resolution(
      ResolvedEnumifyOptions(
        options.artisanBin.GetOr(DefaultArtisanBin),
        options.artisanFile.GetOr(DefaultArtisanFile),
        options.syncCommand.GetOr(DefaultSyncCommand),
        cwd,
        options.watch.GetOr(config.watch),
        options.env.GetOr(map[])),
      config)
  }

  /** With no options and no config file everything takes its default:
      `php artisan enumify:sync`, no extra environment, watching on, enums
      under `app/Enums` and output to `resources/js/enums`. */
  lemma DefaultResolution(processCwd: string, files: map<seq<string>, string>)
    requires Paths.Resolve(processCwd, ConfigPath(processCwd)) !in files
    ensures var r := ResolveOptions(NoOptions(), processCwd, files);
            r.options == ResolvedEnumifyOptions("php", "artisan", "enumify:sync", processCwd, true, map[])
            && r.config.enumPaths == ["app/Enums"] && r.config.outputPath == "resources/js/enums"
  {
  }

  /** Watching is on unless switched off: an explicit `watch` option wins over
      the file, and without one the file can only switch it off by an entry
      spelled `false`. */
  lemma WatchPrecedence(options: EnumifyOptions, processCwd: string, files: map<seq<string>, string>)
    ensures var r := ResolveOptions(options, processCwd, files);
            var file := Paths.Resolve(processCwd, ConfigPath(r.options.cwd));
            !r.options.watch <==>
              (options.watch == Some(false)
               || (options.watch.None? && file in files && SaysFalse(files[file], "watch")))
  {
    var r := ResolveOptions(options, processCwd, files);
    var file := Paths.Resolve(processCwd, ConfigPath(r.options.cwd));
    ConfigFromFile(if file in files then Some(files[file]) else None);
  }

  /** The config file is read in the working directory, and an explicit
      `cwd` option replaces the process's. */
  lemma ConfigReadInCwd(options: EnumifyOptions, processCwd: string, files: map<seq<string>, string>)
    requires options.cwd.Some? && Paths.Resolve(processCwd, ConfigPath(options.cwd.value)) !in files
    ensures ResolveOptions(options, processCwd, files).config == Defaults()
  {
  }
}
