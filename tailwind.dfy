/**
 * plugins/tailwind.js: the Tailwind CSS v4 plugin. Its setup adds two
 * devDependencies, patches `vite.config.ts` (an import after the last import
 * line, a `tailwindcss()` call at the end of the `plugins` array) and puts
 * `@import "tailwindcss";` at the top of the main stylesheet. Each edit is
 * guarded by a "not already there" test.
 */
module Tailwind {
  import opened Wrappers
  import opened JsString
  import opened JsObject
  import opened Utils

  const Name: string := "tailwind"
  const Title: string := "Tailwind CSS"
  const Description: string := "Utility-first CSS framework"

  const DevDeps: Entries := [("tailwindcss", "^4.1.0"), ("@tailwindcss/vite", "^4.1.0")]
  const ImportStatement: string := "import tailwindcss from '@tailwindcss/vite'\n"
  const PluginCall: string := ", tailwindcss()"
  const CssImport: string := "@import \"tailwindcss\";\n\n"

  // ---------------------------------------------------------------------------
  // The import line
  // ---------------------------------------------------------------------------

  /**
   * The index just past the first newline at or after the last `import` (the
   * search starts at 0 when there is no `import`), or 0 when there is no such
   * newline.
   */
  function ImportPosition(config: string): (p: nat)
    ensures p <= |config|
  {
    var lastImportIndex := LastIndexOf(config, "import");
    var nextLineIndex := IndexOf(config, "\n", lastImportIndex);
    nextLineIndex + 1
  }

  /**
   * The import goes at the start of the line after the last `import`: either
   * at the start of the file when no newline follows the last `import`, or
   * right after the first newline that does.
   */
  lemma ImportPositionAfterLastImport(config: string)
    ensures var last := LastIndexOf(config, "import");
      var from := if last < 0 then 0 else last;
      var p := ImportPosition(config);
      && (last >= 0 ==> IsAt(config, "import", last) && forall j :: last < j ==> !IsAt(config, "import", j))
      && (last < 0 ==> forall j :: !IsAt(config, "import", j))
      && ((p == 0 && forall i :: from <= i < |config| ==> config[i] != '\n') ||
          (from < p && config[p - 1] == '\n' && forall i :: from <= i < p - 1 ==> config[i] != '\n'))
  {
    var last := LastIndexOf(config, "import");
    var nl := IndexOf(config, "\n", last);
    forall i | 0 <= i <= |config| {
      IsAtChar(config, '\n', i);
    }
    if last < 0 {
      forall j ensures !IsAt(config, "import", j) {
        if j > last {
        } else {
          assert j < 0;
        }
      }
    }
    IsAtChar(config, '\n', nl);
  }

  function InsertImport(config: string): string {
    var p := ImportPosition(config);
    config[..p] + ImportStatement + config[p..]
  }

  /** The import is added only when `@tailwindcss/vite` is not yet mentioned. */
  function WithImport(config: string): string {
    if Includes(config, "@tailwindcss/vite") then config else InsertImport(config)
  }

  lemma ImportStatementNamesPackage()
    ensures IsAt(ImportStatement, "@tailwindcss/vite", 25)
  {
    assert ImportStatement[25..42] == "@tailwindcss/vite";
  }

  /** After `WithImport` the package is always mentioned, and the config only ever grows by the import line. */
  lemma WithImportMentionsPackage(config: string)
    ensures Includes(WithImport(config), "@tailwindcss/vite")
    ensures WithImport(config) == config || WithImport(config) == InsertImport(config)
  {
    if !Includes(config, "@tailwindcss/vite") {
      ImportStatementNamesPackage();
      OccursInInserted(config, ImportPosition(config), ImportStatement, "@tailwindcss/vite", 25);
    }
  }

  // ---------------------------------------------------------------------------
  // The regular expression /(plugins:\s*\[)([^\]]+)(\])/
  // ---------------------------------------------------------------------------

  /** The end of the run of `\s` characters that starts at `j`. */
  function SkipSpaces(s: string, j: nat): (k: nat)
    requires j <= |s|
    ensures j <= k <= |s|
    ensures forall m :: j <= m < k ==> IsSpace(s[m])
    ensures k < |s| ==> !IsSpace(s[k])
    decreases |s| - j
  {
    if j < |s| && IsSpace(s[j]) then SkipSpaces(s, j + 1) else j
  }

  /** The first `]` at or after `j`, or `|s|` when there is none. */
  function NextClose(s: string, j: nat): (k: nat)
    requires j <= |s|
    ensures j <= k <= |s|
    ensures forall m :: j <= m < k ==> s[m] != ']'
    ensures k < |s| ==> s[k] == ']'
    decreases |s| - j
  {
    if j < |s| && s[j] != ']' then NextClose(s, j + 1) else j
  }

  /** The index of the closing `]` of a match that starts at `i`, computed the way the matcher scans. */
  function MatchAt(s: string, i: nat): (r: Option<nat>)
    ensures r.Some? ==> i + 8 < r.value < |s| && s[r.value] == ']'
  {
    if !IsAt(s, "plugins:", i) then None
    else
      var j := SkipSpaces(s, i + 8);
      if j < |s| && s[j] == '[' then
        var k := NextClose(s, j + 1);
        if j + 1 < k < |s| then Some(k) else None
      else None
  }

  /**
   * The language of the pattern: at `i` the text `plugins:`, a run of white
   * space, `[`, one or more characters other than `]`, and the `]` at `k`.
   */
  ghost predicate MatchesAt(s: string, i: nat, k: nat) {
    && IsAt(s, "plugins:", i) && k < |s| && s[k] == ']'
    && exists j :: i + 8 <= j < k - 1 && s[j] == '[' &&
         (forall m :: i + 8 <= m < j ==> IsSpace(s[m])) &&
         (forall m :: j < m < k ==> s[m] != ']')
  }

  /** The scan finds a match at `i` exactly when the pattern matches there, and with the same `]`. */
  lemma MatchAtIsPatternMatch(s: string, i: nat, k: nat)
    ensures MatchAt(s, i) == Some(k) <==> MatchesAt(s, i, k)
  {
    if MatchesAt(s, i, k) {
      var j :| i + 8 <= j < k - 1 && s[j] == '[' &&
        (forall m :: i + 8 <= m < j ==> IsSpace(s[m])) &&
        (forall m :: j < m < k ==> s[m] != ']');
      var j0 := SkipSpaces(s, i + 8);
      assert !IsSpace(s[j]);
      assert j0 == j;
      var k0 := NextClose(s, j + 1);
      assert k0 == k;
    }
    if MatchAt(s, i) == Some(k) {
      assert MatchesAt(s, i, k) by {
        var j := SkipSpaces(s, i + 8);
        assert i + 8 <= j < k - 1 && s[j] == '[';
      }
    }
  }

  /** The leftmost match at or after `i`, as (start, index of its `]`). */
  function FirstMatchFrom(s: string, i: nat): (r: Option<(nat, nat)>)
    ensures r.Some? ==> i <= r.value.0 && MatchAt(s, r.value.0) == Some(r.value.1)
    ensures r.Some? ==> forall i': nat :: i <= i' < r.value.0 ==> MatchAt(s, i').None?
    ensures r.None? ==> forall i': nat :: i <= i' ==> MatchAt(s, i').None?
    decreases |s| - i
  {
    if i >= |s| then None
    else
      match MatchAt(s, i)
      case Some(k) => Some((i, k))
      case None => FirstMatchFrom(s, i + 1)
  }

  /**
   * `replace(/(plugins:\s*\[)([^\]]+)(\])/, '$1$2, tailwindcss()$3')`: the
   * first match keeps its groups and gets `, tailwindcss()` before its `]`.
   */
  function AddPluginCall(config: string): string {
    match FirstMatchFrom(config, 0)
    case None => config
    case Some((_, k)) => config[..k] + PluginCall + config[k..]
  }

  /**
   * With no match the config is returned unchanged; otherwise the leftmost
   * match gets `, tailwindcss()` inserted just before its closing bracket.
   */
  lemma AddPluginCallIsFirstMatchReplace(config: string)
    ensures (forall i: nat, k: nat :: !MatchesAt(config, i, k)) ==> AddPluginCall(config) == config
    ensures forall i: nat, k: nat ::
      MatchesAt(config, i, k) && (forall i': nat, k': nat :: i' < i ==> !MatchesAt(config, i', k')) ==>
        AddPluginCall(config) == config[..k] + PluginCall + config[k..]
  {
    match FirstMatchFrom(config, 0)
    case None =>
      forall i: nat, k: nat ensures !MatchesAt(config, i, k) {
        MatchAtIsPatternMatch(config, i, k);
      }
    case Some((i0, k0)) =>
      MatchAtIsPatternMatch(config, i0, k0);
      forall i: nat, k: nat | MatchesAt(config, i, k) && (forall i': nat, k': nat :: i' < i ==> !MatchesAt(config, i', k'))
        ensures i == i0 && k == k0
      {
        MatchAtIsPatternMatch(config, i, k);
      }
  }

  /** An array that is empty has no match, so `plugins: []` is left as it is. */
  lemma EmptyPluginsUnchanged()
    ensures AddPluginCall("plugins: []") == "plugins: []"
  {
    var s := "plugins: []";
    assert IsAt(s, "plugins:", 0);
    assert SkipSpaces(s, 9) == 9;
    assert SkipSpaces(s, 8) == 9;
    assert NextClose(s, 10) == 10;
    assert MatchAt(s, 0) == None;
    assert forall i: nat :: 1 <= i ==> !IsAt(s, "plugins:", i);
    assert FirstMatchFrom(s, 0) == None;
  }

  /** The call is appended after the existing plugins. */
  lemma ReactPluginsExample()
    ensures AddPluginCall("plugins: [react()]") == "plugins: [react(), tailwindcss()]"
  {
    var s := "plugins: [react()]";
    ReactPluginsMatch();
    AddPluginCallAt(s, 0, 17);
    var r := s[..17] + PluginCall + s[17..];
    var want := "plugins: [react(), tailwindcss()]";
    assert r[..17] == want[..17];
    assert r[17..] == want[17..];
    assert r == want[..17] + want[17..];
  }

  lemma AddPluginCallAt(config: string, i: nat, k: nat)
    requires FirstMatchFrom(config, 0) == Some((i, k))
    ensures k <= |config| && AddPluginCall(config) == config[..k] + PluginCall + config[k..]
  {
    MatchAtIsPatternMatch(config, i, k);
  }

  lemma ReactPluginsMatch()
    ensures FirstMatchFrom("plugins: [react()]", 0) == Some((0, 17))
  {
    var s := "plugins: [react()]";
    assert IsAt(s, "plugins:", 0);
    assert SkipSpaces(s, 8) == 9;
    assert NextClose(s, 10) == 17;
    assert MatchAt(s, 0) == Some(17);
  }

  /** The call is added only when `tailwindcss()` is not yet in the config. */
  function PatchedConfig(config: string): string {
    var c := WithImport(config);
    if Includes(c, "tailwindcss()") then c else AddPluginCall(c)
  }

  /** Inserting the call keeps every occurrence of a text that has no `]` in it. */
  lemma AddPluginCallKeeps(c: string, n: string, q: nat)
    requires IsAt(c, n, q) && ']' !in n
    ensures Includes(AddPluginCall(c), n)
  {
    match FirstMatchFrom(c, 0)
    case None =>
    case Some((_, k)) =>
      OccurrenceAvoidsChar(c, n, q, k, ']');
      OccurrenceSurvivesInsert(c, k, PluginCall, n, q);
  }

  /** When a match exists, the patched text mentions `tailwindcss()`. */
  lemma AddPluginCallAddsCall(c: string)
    requires FirstMatchFrom(c, 0).Some?
    ensures Includes(AddPluginCall(c), "tailwindcss()")
  {
    var k := FirstMatchFrom(c, 0).value.1;
    assert IsAt(PluginCall, "tailwindcss()", 2) by {
      assert PluginCall[2..15] == "tailwindcss()";
    }
    OccursInInserted(c, k, PluginCall, "tailwindcss()", 2);
  }

  /** The patch always leaves the package mentioned. */
  lemma PatchedConfigMentionsPackage(config: string)
    ensures Includes(PatchedConfig(config), "@tailwindcss/vite")
  {
    var c := WithImport(config);
    WithImportMentionsPackage(config);
    if !Includes(c, "tailwindcss()") {
      var q :| IsAt(c, "@tailwindcss/vite", q);
      assert ']' !in "@tailwindcss/vite";
      AddPluginCallKeeps(c, "@tailwindcss/vite", q);
    }
  }

  /** Patching an already patched config changes nothing. */
  lemma PatchedConfigIdempotent(config: string)
    ensures PatchedConfig(PatchedConfig(config)) == PatchedConfig(config)
  {
    var c := WithImport(config);
    var t := PatchedConfig(config);
    PatchedConfigMentionsPackage(config);
    assert WithImport(t) == t;
    if !Includes(t, "tailwindcss()") {
      if !Includes(c, "tailwindcss()") && FirstMatchFrom(c, 0).Some? {
        AddPluginCallAddsCall(c);
      }
      assert t == c;
    }
  }

  // ---------------------------------------------------------------------------
  // Setup
  // ---------------------------------------------------------------------------

  /** The stylesheet that gets the import: `src/style.css` for Vue templates, `src/index.css` otherwise. */
  function CssFile(template: string): (f: string)
    ensures f == "src/style.css" <==> Includes(template, "vue")
    ensures f == "src/index.css" <==> !Includes(template, "vue")
  {
    if GetTemplateInfo(template).isVue then "src/style.css" else "src/index.css"
  }

  function ConfigPath(root: string): string {
    Join(root, "vite.config.ts")
  }

  function CssPath(root: string, template: string): string {
    Join(root, CssFile(template))
  }

  /** Step 2 of setup: rewrite `vite.config.ts` with the patched text when it exists. */
  function ConfigStep(root: string, files: Files, faults: Faults): (Files, Outcome) {
    var cp := ConfigPath(root);
    if cp in files then Write(files, faults, cp, PatchedConfig(files[cp])) else (files, Success)
  }

  /** Step 3 of setup: prepend the import to the stylesheet when it exists and lacks it. */
  function CssStep(root: string, template: string, files: Files, faults: Faults): (Files, Outcome) {
    var css := CssPath(root, template);
    if css in files && !Includes(files[css], "@import \"tailwindcss\"") then
      Write(files, faults, css, CssImport + files[css])
    else (files, Success)
  }

  /** Steps 2 and 3 of setup, the second only when the first did not throw. */
  function FileSteps(root: string, template: string, files: Files, faults: Faults): (Files, Outcome) {
    var (files1, configWrite) := ConfigStep(root, files, faults);
    if configWrite.Failure? then
      (files1, StepFailed("update vite.config.ts", configWrite.error))
    else
      var (files2, cssWrite) := CssStep(root, template, files1, faults);
      (files2, if cssWrite.Failure? then StepFailed("update " + CssFile(template), cssWrite.error)
               else Success)
  }

  /** What `tailwindPlugin.setup(root, template, pkg)` does to the manifest and the files. */
  function SetupEffect(root: string, template: string, pkg: Manifest, files: Files, faults: Faults): Effect {
    var (files', outcome) := FileSteps(root, template, files, faults);
    Effect(MergedDependencies(pkg, DevDeps, DevDependencies), files', outcome)
  }

  /** `tailwindPlugin.setup`: each failed write throws, leaving the later steps undone. */
  method Setup(root: string, template: string, pkg: Package, fs: FileSystem) returns (r: Outcome)
    modifies pkg, fs
    ensures Effect(pkg.Value(), fs.files, r) == SetupEffect(root, template, old(pkg.Value()), old(fs.files), fs.faults)
  {
    pkg.MergeDependencies(DevDeps);
    var viteConfigPath := Join(root, "vite.config.ts");
    if fs.Exists(viteConfigPath) {
      var viteConfig := fs.Read(viteConfigPath);
      var result := fs.WriteFile(viteConfigPath, Text(PatchedConfig(viteConfig)));
      if result.Failure? {
        return StepFailed("update vite.config.ts", result.error);
      }
    }
    ghost var files1 := fs.files;
    var cssFile := CssFile(template);
    var cssPath := Join(root, cssFile);
    if fs.Exists(cssPath) {
      var existingCss := fs.Read(cssPath);
      if !Includes(existingCss, "@import \"tailwindcss\"") {
        var result := fs.WriteFile(cssPath, Text(CssImport + existingCss));
        if result.Failure? {
          assert (fs.files, result) == CssStep(root, template, files1, fs.faults);
          return StepFailed("update " + cssFile, result.error);
        }
      }
    }
    return Success;
  }

  /** A failure is reported with a message starting `Failed to `. */
  lemma SetupFailureMessage(root: string, template: string, pkg: Manifest, files: Files, faults: Faults)
    ensures var o := SetupEffect(root, template, pkg, files, faults).outcome;
      o.Failure? ==> "Failed to " <= o.error
  {
    assert SetupEffect(root, template, pkg, files, faults).outcome == FileSteps(root, template, files, faults).1;
    FileStepsFailureMessage(root, template, files, faults);
  }

  lemma FileStepsFailureMessage(root: string, template: string, files: Files, faults: Faults)
    ensures var o := FileSteps(root, template, files, faults).1;
      o.Failure? ==> "Failed to " <= o.error
  {
    var c := ConfigStep(root, files, faults);
    var o := FileSteps(root, template, files, faults).1;
    if c.1.Failure? {
      assert o == StepFailed("update vite.config.ts", c.1.error);
    } else {
      var w := CssStep(root, template, c.0, faults);
      if w.1.Failure? {
        assert o == StepFailed("update " + CssFile(template), w.1.error);
      }
    }
  }

  lemma DevDepsUnique()
    ensures UniqueKeys(DevDeps)
  {
  }

  /**
   * devDependencies gains `tailwindcss` and `@tailwindcss/vite` at `^4.1.0`,
   * keeps every other entry and is sorted by key; dependencies and scripts are
   * untouched.
   */
  lemma SetupManifest(root: string, template: string, pkg: Manifest, files: Files, faults: Faults)
    requires WellFormed(pkg)
    ensures var m := SetupEffect(root, template, pkg, files, faults).pkg;
      && m.devDependencies.Some?
      && Get(m.devDependencies.value, "tailwindcss") == Some("^4.1.0")
      && Get(m.devDependencies.value, "@tailwindcss/vite") == Some("^4.1.0")
      && Ascending(m.devDependencies.value)
      && (forall k :: k !in Keys(DevDeps) ==> Get(m.devDependencies.value, k) == Get(pkg.devDependencies.GetOr([]), k))
      && m.dependencies == pkg.dependencies && m.scripts == pkg.scripts
      && WellFormed(m)
  {
    DevDepsUnique();
    MergeDependenciesContents(pkg, DevDeps, DevDependencies);
    KeyIn(DevDeps, 0);
    KeyIn(DevDeps, 1);
    GetIn(DevDeps, "tailwindcss", "^4.1.0");
    GetIn(DevDeps, "@tailwindcss/vite", "^4.1.0");
  }

  lemma PathsDiffer(root: string, template: string)
    ensures ConfigPath(root) != CssPath(root, template)
  {
    if ConfigPath(root) == CssPath(root, template) {
      JoinInjective(root, "vite.config.ts", CssFile(template));
    }
  }

  /**
   * Only `vite.config.ts` is looked at, whatever the template: when it is
   * missing nothing is written there; when it exists it is rewritten with the
   * patched text, and a failed write ends setup with the message
   * `Failed to update vite.config.ts: <cause>` and no further file change.
   */
  lemma SetupConfigFile(root: string, template: string, pkg: Manifest, files: Files, faults: Faults)
    ensures var e := SetupEffect(root, template, pkg, files, faults);
      var cp := ConfigPath(root);
      && (cp !in files ==> cp !in e.files)
      && (cp in files && cp !in faults ==> cp in e.files && e.files[cp] == PatchedConfig(files[cp]))
      && (cp in files && cp in faults ==>
            e.files == files && e.outcome == StepFailed("update vite.config.ts", faults[cp]))
  {
    PathsDiffer(root, template);
  }

  /**
   * Once the config step succeeded: a missing stylesheet is skipped; one that
   * already has `@import "tailwindcss"` is left alone; otherwise the import
   * is put in front of its text, or the failed write is reported as
   * `Failed to update <css file>: <cause>`.
   */
  lemma SetupCssFile(root: string, template: string, pkg: Manifest, files: Files, faults: Faults)
    requires ConfigPath(root) !in files || ConfigPath(root) !in faults
    ensures var e := SetupEffect(root, template, pkg, files, faults);
      var css := CssPath(root, template);
      && (css !in files ==> css !in e.files && e.outcome == Success)
      && (css in files && Includes(files[css], "@import \"tailwindcss\"") ==>
            css in e.files && e.files[css] == files[css] && e.outcome == Success)
      && (css in files && !Includes(files[css], "@import \"tailwindcss\"") && css !in faults ==>
            css in e.files && e.files[css] == CssImport + files[css] && e.outcome == Success)
      && (css in files && !Includes(files[css], "@import \"tailwindcss\"") && css in faults ==>
            && e.files == (if ConfigPath(root) in files then files[ConfigPath(root) := PatchedConfig(files[ConfigPath(root)])] else files)
            && e.outcome == StepFailed("update " + CssFile(template), faults[css]))
  {
    PathsDiffer(root, template);
    var css := CssPath(root, template);
    var c := ConfigStep(root, files, faults);
    ConfigStepCases(root, files, faults);
    assert c.1 == Success && (css in c.0 <==> css in files) && (css in files ==> c.0[css] == files[css]);
    var w := CssStep(root, template, c.0, faults);
    CssStepCases(root, template, c.0, faults);
    var e := SetupEffect(root, template, pkg, files, faults);
    assert e.files == w.0 && e.outcome == if w.1.Failure? then StepFailed("update " + CssFile(template), w.1.error) else Success;
  }

  /** The config step in closed form. */
  lemma ConfigStepCases(root: string, files: Files, faults: Faults)
    ensures var (f, o) := ConfigStep(root, files, faults);
      var cp := ConfigPath(root);
      && (cp !in files ==> f == files && o == Success)
      && (cp in files && cp !in faults ==> f == files[cp := PatchedConfig(files[cp])] && o == Success)
      && (cp in files && cp in faults ==> f == files && o == Failure(faults[cp]))
  {
  }

  /** The stylesheet step in closed form. */
  lemma CssStepCases(root: string, template: string, files: Files, faults: Faults)
    ensures var (f, o) := CssStep(root, template, files, faults);
      var css := CssPath(root, template);
      && (css in files && !Includes(files[css], "@import \"tailwindcss\"") && css !in faults ==>
            f == files[css := CssImport + files[css]] && o == Success)
      && (css in files && !Includes(files[css], "@import \"tailwindcss\"") && css in faults ==>
            f == files && o == Failure(faults[css]))
      && (css !in files || Includes(files[css], "@import \"tailwindcss\"") ==> f == files && o == Success)
  {
  }

  /** No file other than the config and the stylesheet is created, removed or changed. */
  lemma SetupFrame(root: string, template: string, pkg: Manifest, files: Files, faults: Faults)
    ensures var e := SetupEffect(root, template, pkg, files, faults);
      forall p :: p != ConfigPath(root) && p != CssPath(root, template) ==>
        (p in e.files <==> p in files) && (p in files ==> e.files[p] == files[p])
  {
    assert SetupEffect(root, template, pkg, files, faults).files == FileSteps(root, template, files, faults).0;
    FileStepsFrame(root, template, files, faults);
  }

  lemma FileStepsFrame(root: string, template: string, files: Files, faults: Faults)
    ensures var f := FileSteps(root, template, files, faults).0;
      forall p :: p != ConfigPath(root) && p != CssPath(root, template) ==>
        (p in f <==> p in files) && (p in files ==> f[p] == files[p])
  {
    ConfigStepCases(root, files, faults);
    CssStepCases(root, template, ConfigStep(root, files, faults).0, faults);
  }

  lemma PrependedHasImport(x: string)
    ensures Includes(CssImport + x, "@import \"tailwindcss\"")
  {
    assert IsAt(CssImport + x, "@import \"tailwindcss\"", 0) by {
      assert (CssImport + x)[0..21] == "@import \"tailwindcss\"";
    }
  }

  /** Without a Vite config and a stylesheet, setup changes no file and succeeds. */
  lemma SetupWithoutFiles(root: string, template: string, pkg: Manifest, files: Files, faults: Faults)
    requires ConfigPath(root) !in files && CssPath(root, template) !in files
    ensures var e := SetupEffect(root, template, pkg, files, faults);
      e.files == files && e.outcome == Success
  {
    ConfigStepCases(root, files, faults);
    CssStepCases(root, template, files, faults);
  }

  /** A config step that succeeded leaves nothing for a second config step to do. */
  lemma ConfigStepStable(root: string, files: Files, faults: Faults)
    requires ConfigStep(root, files, faults).1.Success?
    ensures var f := ConfigStep(root, files, faults).0;
      ConfigStep(root, f, faults) == (f, Success)
  {
    var cp := ConfigPath(root);
    ConfigStepCases(root, files, faults);
    var f := ConfigStep(root, files, faults).0;
    ConfigStepCases(root, f, faults);
    if cp in files {
      PatchedConfigIdempotent(files[cp]);
      assert f[cp := PatchedConfig(f[cp])] == f;
    }
  }

  /** A second stylesheet step repeats the first one's outcome and changes nothing more. */
  lemma CssStepStable(root: string, template: string, files: Files, faults: Faults)
    ensures var (f, o) := CssStep(root, template, files, faults);
      CssStep(root, template, f, faults) == (f, o)
  {
    var css := CssPath(root, template);
    CssStepCases(root, template, files, faults);
    var f := CssStep(root, template, files, faults).0;
    CssStepCases(root, template, f, faults);
    if css in files && !Includes(files[css], "@import \"tailwindcss\"") && css !in faults {
      PrependedHasImport(files[css]);
    }
  }

  /** A config that needs no more patching still needs none after the stylesheet step, which touches another path. */
  lemma CssStepKeepsConfig(root: string, template: string, files: Files, faults: Faults)
    requires ConfigStep(root, files, faults) == (files, Success)
    ensures var f := CssStep(root, template, files, faults).0;
      ConfigStep(root, f, faults) == (f, Success)
  {
    PathsDiffer(root, template);
    CssStepCases(root, template, files, faults);
    ConfigStepLocal(root, files, CssStep(root, template, files, faults).0, faults);
  }

  /** The config step looks only at the config file, so a tree that agrees on it fares the same. */
  lemma ConfigStepLocal(root: string, files: Files, f: Files, faults: Faults)
    requires ConfigStep(root, files, faults) == (files, Success)
    requires var cp := ConfigPath(root); (cp in f <==> cp in files) && (cp in files ==> f[cp] == files[cp])
    ensures ConfigStep(root, f, faults) == (f, Success)
  {
    ConfigStepCases(root, files, faults);
    ConfigStepCases(root, f, faults);
    var cp := ConfigPath(root);
    if cp in files {
      assert files[cp := PatchedConfig(files[cp])][cp] == PatchedConfig(files[cp]);
      assert f[cp := PatchedConfig(f[cp])] == f;
    }
  }

  /** Running setup again on its own result changes nothing and ends the same way. */
  lemma SetupIdempotent(root: string, template: string, pkg: Manifest, files: Files, faults: Faults)
    requires WellFormed(pkg)
    ensures var e := SetupEffect(root, template, pkg, files, faults);
      SetupEffect(root, template, e.pkg, e.files, faults) == e
  {
    DevDepsUnique();
    MergeDependenciesIdempotent(pkg, DevDeps, DevDependencies);
    var (f1, o1) := ConfigStep(root, files, faults);
    if o1.Success? {
      ConfigStepStable(root, files, faults);
      CssStepKeepsConfig(root, template, f1, faults);
      CssStepStable(root, template, f1, faults);
    } else {
      ConfigStepCases(root, files, faults);
    }
  }
}
