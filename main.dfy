/**
 * The main process's decisions: the command-line scan, the Quick Look debug
 * switch, where the app is installed, the capped Quick Look telemetry log,
 * settings and recent-files migration, the recent-files list, whether the
 * Quick Look helper must be registered again, and the find-bar stop action.
 * Files arrive already read and parsed (`FileRead`); the environment, the home
 * directory, the bundle path, the app version and fingerprints are parameters.
 */
module MainProcess {
  import opened Wrappers
  import opened Text
  import opened Js

  // ---------------------------------------------------------------------------
  // Command line
  // ---------------------------------------------------------------------------

  datatype CliOptions = CliOptions(
    filePath: Option<string>,
    pdfOutput: Option<string>,
    showVersion: bool,
    quicklookDebug: bool,
    uninstallQuicklook: bool,
    uninstallAll: bool)

  const NoOptions := CliOptions(None, None, false, false, false, false)

  /** An argument taken as the file to open: anything not starting with `--`, except `-v`. */
  predicate Positional(a: string) {
    !StartsWith(a, "--") && a != "-v"
  }

  /** The effect of one argument that is not a `--pdf` with a value after it. */
  function Step(a: string, o: CliOptions): CliOptions {
    if a == "--version" || a == "-v" then o.(showVersion := true)
    else if a == "--ql-debug" || a == "--quicklook-debug" then o.(quicklookDebug := true)
    else if a == "--uninstall-quicklook" then o.(uninstallQuicklook := true)
    else if a == "--uninstall-all" then o.(uninstallAll := true)
    else if !StartsWith(a, "--") then o.(filePath := Some(a))
    else o
  }

  /** The options after scanning `args` from `o`: `--pdf` with a non-empty argument after it takes
      that argument as the output path and skips it. */
  function Scan(args: seq<string>, o: CliOptions): CliOptions
    decreases |args|
  {
    if args == [] then o
    else if args[0] == "--pdf" && |args| > 1 && args[1] != "" then Scan(args[2..], o.(pdfOutput := Some(args[1])))
    else Scan(args[1..], Step(args[0], o))
  }

  /** The argument loop, over `process.argv.slice(2)`. */
  method ParseArgs(args: seq<string>) returns (opts: CliOptions)
    ensures opts == Scan(args, NoOptions)
  {
    opts := NoOptions;
    var i := 0;
    while i < |args|
      invariant 0 <= i <= |args|
      invariant Scan(args[i..], opts) == Scan(args, NoOptions)
      decreases |args| - i
    {
      assert args[i..][1..] == args[i + 1..];
      if args[i] == "--pdf" && i + 1 < |args| && args[i + 1] != "" {
        assert args[i..][2..] == args[i + 2..];
        opts := opts.(pdfOutput := Some(args[i + 1]));
        i := i + 1;
      } else if args[i] == "--version" || args[i] == "-v" {
        opts := opts.(showVersion := true);
      } else if args[i] == "--ql-debug" || args[i] == "--quicklook-debug" {
        opts := opts.(quicklookDebug := true);
      } else if args[i] == "--uninstall-quicklook" {
        opts := opts.(uninstallQuicklook := true);
      } else if args[i] == "--uninstall-all" {
        opts := opts.(uninstallAll := true);
      } else if !StartsWith(args[i], "--") {
        opts := opts.(filePath := Some(args[i]));
      }
      i := i + 1;
    }
  }

  /** The last positional argument, if any. */
  function LastPositional(args: seq<string>): Option<string> {
    if args == [] then None
    else if Positional(args[|args| - 1]) then Some(args[|args| - 1])
    else LastPositional(args[..|args| - 1])
  }

  /** Scanning arguments without `--pdf` goes one argument at a time. */
  lemma {:induction false} ScanAppend(a: seq<string>, b: seq<string>, o: CliOptions)
    requires "--pdf" !in a
    ensures Scan(a + b, o) == Scan(b, Scan(a, o))
  {
    if a == [] {
      assert a + b == b;
    } else {
      assert (a + b)[0] == a[0] && (a + b)[1..] == a[1..] + b;
      assert "--pdf" !in a[1..];
      ScanAppend(a[1..], b, Step(a[0], o));
    }
  }

  /** Without `--pdf`, the file path is the last positional argument, or the one given before. */
  lemma {:induction false} LastPositionalWins(args: seq<string>, o: CliOptions)
    requires "--pdf" !in args
    ensures Scan(args, o).filePath == (if LastPositional(args) == None then o.filePath else LastPositional(args))
    ensures Scan(args, o).pdfOutput == o.pdfOutput
  {
    if args != [] {
      var init, last := args[..|args| - 1], args[|args| - 1];
      assert args == init + [last];
      assert "--pdf" !in init;
      ScanAppend(init, [last], o);
      LastPositionalWins(init, o);
      ScanOne(last, Scan(init, o));
      StepFilePath(last, Scan(init, o));
    }
  }

  lemma ScanOne(a: string, o: CliOptions)
    ensures Scan([a], o) == Step(a, o)
  {
    assert [a][1..] == [];
  }

  /** One argument sets the file path exactly when it is positional, and never the output path. */
  lemma StepFilePath(a: string, o: CliOptions)
    ensures Step(a, o).filePath == (if Positional(a) then Some(a) else o.filePath)
    ensures Step(a, o).pdfOutput == o.pdfOutput
  {
    if a == "--version" || a == "--ql-debug" || a == "--quicklook-debug" || a == "--uninstall-quicklook" || a == "--uninstall-all" {
      assert a[..2] == "--";
    }
  }

  /** `--pdf` with a non-empty value sets the output path and consumes the value, which therefore
      never becomes the file path; a `--pdf` with nothing after it changes nothing. */
  lemma PdfConsumesValue(pre: seq<string>, x: string, post: seq<string>, o: CliOptions)
    requires "--pdf" !in pre && x != ""
    ensures Scan(pre + (["--pdf", x] + post), o) == Scan(post, Scan(pre, o).(pdfOutput := Some(x)))
    ensures Scan(pre + ["--pdf"], o) == Scan(pre, o)
  {
    ScanAppend(pre, ["--pdf", x] + post, o);
    var rest := ["--pdf", x] + post;
    assert rest[0] == "--pdf" && rest[1] == x && rest[2..] == post;
    ScanAppend(pre, ["--pdf"], o);
    assert StartsWith("--pdf", "--");
  }

  // ---------------------------------------------------------------------------
  // Quick Look debug switch and install location
  // ---------------------------------------------------------------------------

  /** `is_quicklook_debug_enabled`, with `MARKPANE_QL_DEBUG` as `env`. */
  function IsQuicklookDebugEnabled(flag: bool, env: Option<string>): bool {
    if flag then true
    else if env.None? || env.value == "" then false
    else env.value == "1" || ToLowerAscii(env.value) == "true"
  }

  /** Debugging is on exactly when the flag is set or the variable is `1` or `true` in any case. */
  lemma DebugEnabledIff(flag: bool, env: Option<string>)
    ensures IsQuicklookDebugEnabled(flag, env)
        <==> flag || env == Some("1") || (env.Some? && SpelledAnyCase(env.value, "true"))
  {
    if env.Some? {
      LowerEqualsIffSpelledAnyCase(env.value, "true");
    }
  }

  /** `path.join(dir, name)` for a directory without `.` or `..` segments. */
  function JoinDir(dir: string, name: string): string {
    if dir != [] && dir[|dir| - 1] == '/' then dir + name else dir + "/" + name
  }

  const SystemApplications := "/Applications"

  /** `get_applications_location`: the Applications folder the app bundle sits in, if either. */
  function ApplicationsLocation(bundle: Option<string>, home: string): Option<string> {
    if bundle.None? then None
    else if StartsWith(bundle.value, SystemApplications + "/") then Some(SystemApplications)
    else if StartsWith(bundle.value, JoinDir(home, "Applications") + "/") then Some(JoinDir(home, "Applications"))
    else None
  }

  /** The system folder is reported exactly for bundles under `/Applications/`, the user's
      `~/Applications` for bundles under it and not under the system folder, nothing for any other
      bundle; any folder reported is a directory prefix of the bundle path. */
  lemma ApplicationsLocationSound(bundle: Option<string>, home: string)
    ensures ApplicationsLocation(bundle, home) == Some(SystemApplications)
        <==> bundle.Some? && StartsWith(bundle.value, SystemApplications + "/")
    ensures ApplicationsLocation(bundle, home).Some? ==>
        bundle.Some? && StartsWith(bundle.value, ApplicationsLocation(bundle, home).value + "/")
    ensures ApplicationsLocation(bundle, home).Some? ==>
        ApplicationsLocation(bundle, home).value in {SystemApplications, JoinDir(home, "Applications")}
    ensures (bundle.Some? && !StartsWith(bundle.value, SystemApplications + "/")
             && StartsWith(bundle.value, JoinDir(home, "Applications") + "/")) ==>
        ApplicationsLocation(bundle, home) == Some(JoinDir(home, "Applications"))
    ensures ApplicationsLocation(bundle, home).None? <==>
        bundle.None? || (!StartsWith(bundle.value, SystemApplications + "/")
                         && !StartsWith(bundle.value, JoinDir(home, "Applications") + "/"))
  {
  }

  // ---------------------------------------------------------------------------
  // Telemetry log
  // ---------------------------------------------------------------------------

  const MaxTelemetryEntries := 50

  /** The log entries already on disk: none when the file is missing or is not an array. */
  function PriorEntries(file: FileRead): seq<Json> {
    if file.Parsed? && file.value.Arr? then file.value.items else []
  }

  /** `write_quicklook_telemetry`: the log written back, or `None` when nothing is written
      (no telemetry, or a log file that does not parse). */
  method AppendTelemetry(file: FileRead, telemetry: Json) returns (written: Option<seq<Json>>)
    ensures written.None? <==> !Truthy(telemetry) || file.Corrupt?
    ensures written.Some? ==>
      var prior := PriorEntries(file) + [telemetry];
      var w := written.value;
      |w| == (if |prior| < MaxTelemetryEntries then |prior| else MaxTelemetryEntries)
      && w == prior[|prior| - |w|..]
      && w[|w| - 1] == telemetry
  {
    if !Truthy(telemetry) {
      return None;
    }
    if file.Corrupt? {
      return None;
    }
    var entries: seq<Json> := [];
    if file.Parsed? && file.value.Arr? {
      entries := file.value.items;
    }
    entries := entries + [telemetry];
    ghost var all := entries;
    assert all == PriorEntries(file) + [telemetry];
    if |entries| > MaxTelemetryEntries {
      entries := entries[|entries| - MaxTelemetryEntries..];
    }
    KeepLast(all, entries);
    written := Some(entries);
  }

  /** The log kept from `all`: its newest entries, at most fifty, ending with the newest. */
  lemma KeepLast(all: seq<Json>, w: seq<Json>)
    requires |all| > 0
    requires w == if |all| > MaxTelemetryEntries then all[|all| - MaxTelemetryEntries..] else all
    ensures |w| == (if |all| < MaxTelemetryEntries then |all| else MaxTelemetryEntries)
    ensures w == all[|all| - |w|..] && w[|w| - 1] == all[|all| - 1]
  {
    assert all[0..] == all;
  }

  // ---------------------------------------------------------------------------
  // Settings
  // ---------------------------------------------------------------------------

  function DefaultSettings(): Json {
    Obj(map["theme" := Str("system"), "bodyFont" := Str("San Francisco"), "codeFont" := Str("SF Mono")])
  }

  /** The migration and defaults applied to a parsed settings object. */
  function MigrateSettings(m: map<string, Json>): map<string, Json> {
    var font := if "font" in m then m["font"] else Undefined;
    var body := if "bodyFont" in m then m["bodyFont"] else Undefined;
    var m1 := if Truthy(font) && !Truthy(body)
      then (m["bodyFont" := if font == Str("System Default") then Str("San Francisco") else font]) - {"font"}
      else m;
    var m2 := if "bodyFont" in m1 && Truthy(m1["bodyFont"]) then m1 else m1["bodyFont" := Str("San Francisco")];
    if "codeFont" in m2 && Truthy(m2["codeFont"]) then m2 else m2["codeFont" := Str("SF Mono")]
  }

  /** `load_settings`: defaults for a missing or unreadable file or `null`, the migrated object for
      an object, and any other parsed value as it is. For a primitive that is what JavaScript does,
      since setting a property on one is a no-op. An array is returned as it is too, while JavaScript
      sets `bodyFont` and `codeFont` on it: `Json` has no array with named properties. */
  method LoadSettings(file: FileRead) returns (settings: Json)
    ensures settings == match file
      case Parsed(Obj(m)) => Obj(MigrateSettings(m))
      case Parsed(Null) => DefaultSettings()
      case Parsed(v) => v
      case _ => DefaultSettings()
  {
    if !file.Parsed? || file.value.Null? {
      return DefaultSettings();
    }
    settings := file.value;
    if !settings.Obj? {
      return;
    }
    var fields := settings.fields;
    if Truthy(Prop(settings, "font")) && !Truthy(Prop(settings, "bodyFont")) {
      fields := fields["bodyFont" := if fields["font"] == Str("System Default") then Str("San Francisco") else fields["font"]];
      fields := fields - {"font"};
    }
    if !Truthy(Prop(Obj(fields), "bodyFont")) {
      fields := fields["bodyFont" := Str("San Francisco")];
    }
    if !Truthy(Prop(Obj(fields), "codeFont")) {
      fields := fields["codeFont" := Str("SF Mono")];
    }
    settings := Obj(fields);
  }

  /** What migration promises: `font` moves to `bodyFont` only when `bodyFont` is unset, with
      `System Default` renamed; both fonts are set afterwards; every other setting is untouched. */
  lemma MigrateSettingsSpec(m: map<string, Json>)
    ensures var r := MigrateSettings(m);
      var migrates := Truthy(Prop(Obj(m), "font")) && !Truthy(Prop(Obj(m), "bodyFont"));
      Truthy(Prop(Obj(r), "bodyFont")) && Truthy(Prop(Obj(r), "codeFont"))
      && (migrates ==> "font" !in r && r["bodyFont"] == (if m["font"] == Str("System Default") then Str("San Francisco") else m["font"]))
      && (!migrates ==> ("font" in r <==> "font" in m) && ("font" in m ==> r["font"] == m["font"]))
      && (Truthy(Prop(Obj(m), "bodyFont")) ==> r["bodyFont"] == m["bodyFont"])
      && (Truthy(Prop(Obj(m), "codeFont")) ==> r["codeFont"] == m["codeFont"])
      && (!migrates && !Truthy(Prop(Obj(m), "bodyFont")) ==> r["bodyFont"] == Str("San Francisco"))
      && (!Truthy(Prop(Obj(m), "codeFont")) ==> r["codeFont"] == Str("SF Mono"))
      && forall k :: k !in {"font", "bodyFont", "codeFont"} ==> (k in r <==> k in m) && (k in m ==> r[k] == m[k])
  {
  }

  /** Loading settings that were already migrated changes nothing more. */
  lemma MigrateSettingsIdempotent(m: map<string, Json>)
    ensures MigrateSettings(MigrateSettings(m)) == MigrateSettings(m)
  {
    var r := MigrateSettings(m);
    MigrateSettingsSpec(m);
    assert Truthy(Prop(Obj(r), "bodyFont")) && Truthy(Prop(Obj(r), "codeFont"));
  }

  // ---------------------------------------------------------------------------
  // Recent files
  // ---------------------------------------------------------------------------

  const MaxRecentFiles := 10

  /** One entry of the recent-files file in the current form: a string stays, an object of the old
      form gives its `path`, anything else gives `null`. */
  function MigrateRecentEntry(item: Json): Json {
    if item.Str? then item
    else if Truthy(item) && Truthy(Prop(item, "path")) then Prop(item, "path")
    else Null
  }

  /** `load_recent_files` on a parsed array: migrate each entry, then drop the falsy ones. */
  function MigrateRecent(items: seq<Json>): (r: seq<Json>)
    ensures forall x :: x in r ==> Truthy(x)
    ensures |r| <= |items|
  {
    if items == [] then []
    else
      var e := MigrateRecentEntry(items[0]);
      if Truthy(e) then [e] + MigrateRecent(items[1..]) else MigrateRecent(items[1..])
  }

  /** `load_recent_files`: nothing for a missing or unreadable file or a non-array. */
  function LoadRecentFiles(file: FileRead): (r: seq<Json>)
    ensures forall x :: x in r ==> Truthy(x)
  {
    if file.Parsed? && file.value.Arr? then MigrateRecent(file.value.items) else []
  }

  /** Every non-empty path string survives migration, in order; an old-form entry contributes its path. */
  lemma {:induction false} MigrateRecentKeepsPaths(a: seq<Json>, p: string, b: seq<Json>)
    requires p != ""
    ensures MigrateRecent(a + [Str(p)] + b) == MigrateRecent(a) + [Str(p)] + MigrateRecent(b)
    ensures MigrateRecent(a + [Obj(map["path" := Str(p)])] + b) == MigrateRecent(a) + [Str(p)] + MigrateRecent(b)
  {
    if a == [] {
      assert (a + [Str(p)] + b)[1..] == b;
      assert (a + [Obj(map["path" := Str(p)])] + b)[1..] == b;
    } else {
      assert (a + [Str(p)] + b)[1..] == a[1..] + [Str(p)] + b;
      assert (a + [Obj(map["path" := Str(p)])] + b)[1..] == a[1..] + [Obj(map["path" := Str(p)])] + b;
      MigrateRecentKeepsPaths(a[1..], p, b);
    }
  }

  /** A list of path strings, as written by the app, is read back unchanged. */
  lemma {:induction false} MigrateRecentStrings(items: seq<Json>)
    requires forall x :: x in items ==> x.Str? && x.s != ""
    ensures MigrateRecent(items) == items
  {
    if items != [] {
      assert forall x :: x in items[1..] ==> x in items;
      MigrateRecentStrings(items[1..]);
    }
  }

  /** `items` with every entry equal to `x` removed. */
  function Without(items: seq<Json>, x: Json): (r: seq<Json>)
    ensures forall y :: y in r <==> y in items && y != x
    ensures |r| <= |items|
  {
    if items == [] then []
    else if items[0] == x then Without(items[1..], x)
    else [items[0]] + Without(items[1..], x)
  }

  /** `a` is `b` with some entries left out, the rest in the same order. */
  predicate Subsequence(a: seq<Json>, b: seq<Json>)
    decreases |b|
  {
    if a == [] then true
    else if b == [] then false
    else if a[0] == b[0] then Subsequence(a[1..], b[1..])
    else Subsequence(a, b[1..])
  }

  lemma {:induction false} WithoutSubsequence(items: seq<Json>, x: Json)
    ensures Subsequence(Without(items, x), items)
  {
    if items != [] {
      WithoutSubsequence(items[1..], x);
      if items[0] == x {
        SubsequenceSkip(Without(items[1..], x), items[1..], x);
      }
    }
  }

  /** A subsequence of `b` is one of `b` with anything put in front. */
  lemma {:induction false} SubsequenceSkip(a: seq<Json>, b: seq<Json>, x: Json)
    requires Subsequence(a, b)
    ensures Subsequence(a, [x] + b)
    decreases |b|, 1
  {
    assert ([x] + b)[1..] == b;
    if a != [] && a[0] == x {
      SubsequenceTail(a, b);
    }
  }

  /** Dropping the first entry of a subsequence leaves a subsequence. */
  lemma {:induction false} SubsequenceTail(a: seq<Json>, b: seq<Json>)
    requires a != [] && Subsequence(a, b)
    ensures Subsequence(a[1..], b)
    decreases |b|, 0
  {
    assert [b[0]] + b[1..] == b;
    if a[0] == b[0] {
      SubsequenceSkip(a[1..], b[1..], b[0]);
    } else {
      SubsequenceTail(a, b[1..]);
      SubsequenceSkip(a[1..], b[1..], b[0]);
    }
  }

  lemma {:induction false} SubsequencePrefix(a: seq<Json>, b: seq<Json>, n: nat)
    requires Subsequence(a, b) && n <= |a|
    ensures Subsequence(a[..n], b)
    decreases |b|
  {
    if n > 0 {
      if a[0] == b[0] {
        SubsequencePrefix(a[1..], b[1..], n - 1);
        assert a[..n][1..] == a[1..][..n - 1];
      } else {
        SubsequencePrefix(a, b[1..], n);
      }
    }
  }

  /** `add_recent_file` from the list already loaded, with `path` already normalised: the list
      written back starts with the path, holds it nowhere else, has at most ten entries, and the
      other entries keep their order; when the list is full, the oldest entries are the ones dropped. */
  method AddRecentFile(recent: seq<Json>, path: string) returns (saved: seq<Json>)
    ensures |saved| >= 1 && saved[0] == Str(path)
    ensures Str(path) !in saved[1..]
    ensures |saved| <= MaxRecentFiles
    ensures Subsequence(saved[1..], recent)
    ensures forall y :: y in recent && y != Str(path) && y !in saved ==> |saved| == MaxRecentFiles
    ensures var rest := Without(recent, Str(path));
      saved[1..] == rest[..if |rest| < MaxRecentFiles then |rest| else MaxRecentFiles - 1]
  {
    var rest := Without(recent, Str(path));
    WithoutSubsequence(recent, Str(path));
    saved := [Str(path)] + rest;
    if |saved| > MaxRecentFiles {
      saved := saved[..MaxRecentFiles];
      var kept := rest[..MaxRecentFiles - 1];
      assert saved[1..] == kept;
      forall k | 0 <= k < |kept|
        ensures kept[k] != Str(path)
      {
        assert kept[k] == rest[k] && rest[k] in rest;
      }
      SubsequencePrefix(rest, recent, MaxRecentFiles - 1);
    } else {
      assert saved[1..] == rest;
    }
  }

  // ---------------------------------------------------------------------------
  // Quick Look registration
  // ---------------------------------------------------------------------------

  /** The `needs_register` test, with the saved state as parsed (`Null` when there is none). */
  function NeedsRegister(state: Json, appPath: Option<string>, version: string,
                         source: Option<string>, target: Option<string>): bool
  {
    !Truthy(state)
    || Prop(state, "app_path") != OrNull(appPath)
    || Prop(state, "app_version") != Str(version)
    || Prop(state, "helper_fingerprint") != OrNull(source)
    || (source.Some? && source.value != "" && target != source)
  }

  /** The state `register_quicklook` saves. */
  function RecordedState(registeredAt: string, appPath: Option<string>, helperPath: string,
                         fingerprint: Option<string>, version: string): Json
  {
    Obj(map["registered_at" := Str(registeredAt), "app_path" := OrNull(appPath), "helper_path" := Str(helperPath),
            "helper_fingerprint" := OrNull(fingerprint), "app_version" := Str(version)])
  }

  /** Right after a registration of this app and version, registering again is needed only when the
      installed helper does not match the bundled one. */
  lemma RegisteredStateIsStable(at: string, appPath: Option<string>, helperPath: string, version: string,
                                source: Option<string>, target: Option<string>)
    ensures NeedsRegister(RecordedState(at, appPath, helperPath, source, version), appPath, version, source, target)
        <==> source.Some? && source.value != "" && target != source
  {
  }

  /** Any change of app path, version or bundled helper calls for a new registration. */
  lemma ChangeNeedsRegister(at: string, appPath: Option<string>, helperPath: string, version: string,
                            source: Option<string>, appPath2: Option<string>, version2: string,
                            source2: Option<string>, target: Option<string>)
    requires appPath2 != appPath || version2 != version || source2 != source
    ensures NeedsRegister(RecordedState(at, appPath, helperPath, source, version), appPath2, version2, source2, target)
  {
    var st := RecordedState(at, appPath, helperPath, source, version);
    assert Prop(st, "app_path") == OrNull(appPath);
    assert Prop(st, "app_version") == Str(version);
    assert Prop(st, "helper_fingerprint") == OrNull(source);
  }

  // ---------------------------------------------------------------------------
  // Find bar
  // ---------------------------------------------------------------------------

  const StopActions := ["clearSelection", "keepSelection", "activateSelection"]

  /** The `stop-find` handler's action: one of the three allowed, `clearSelection` for anything else. */
  function StopFindAction(action: Json): (r: string)
    ensures r in StopActions
    ensures action.Str? && action.s in StopActions ==> r == action.s
    ensures !(action.Str? && action.s in StopActions) ==> r == "clearSelection"
  {
    if action.Str? && action.s in StopActions then action.s else "clearSelection"
  }

  /** Validating a validated action changes nothing. */
  lemma StopFindIdempotent(action: Json)
    ensures StopFindAction(Str(StopFindAction(action))) == StopFindAction(action)
  {
  }
}
