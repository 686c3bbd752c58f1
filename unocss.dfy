/**
 * plugins/unocss.js: the UnoCSS plugin. Its setup adds devDependencies (and
 * the React preset for React templates), writes `uno.config.js`, patches the
 * Vite config with two first-occurrence replacements and prepends the
 * virtual stylesheet import to the main entry file. Unlike the other
 * plugins, neither the config patch nor the prepend is guarded.
 */
module Unocss {
  import opened Wrappers
  import opened JsString
  import opened JsObject
  import opened Utils

  const Name: string := "unocss"
  const Title: string := "UnoCSS"
  const Description: string := "Instant on-demand atomic CSS engine"

  const Version: string := "^0.64.6"

  const UnoConfigText: string :=
    "import { defineConfig, presetUno, presetAttributify, presetIcons } from 'unocss'\n" +
    "\n" +
    "export default defineConfig({\n" +
    "  presets: [\n" +
    "    presetUno(),\n" +
    "    presetAttributify(),\n" +
    "    presetIcons({\n" +
    "      scale: 1.2,\n" +
    "      warn: true,\n" +
    "    }),\n" +
    "  ],\n" +
    "})\n"

  const ViteAnchor: string := "from 'vite'"
  const ViteImport: string := ViteAnchor + "\nimport UnoCSS from 'unocss/vite'"
  const PluginsAnchor: string := "plugins: ["
  const PluginsEntry: string := PluginsAnchor + "\n    UnoCSS(),"
  const MainImport: string := "import 'virtual:uno.css'\n"

  /** The devDependencies to merge: `unocss`, then `@unocss/preset-react` for React templates. */
  function Dependencies(template: string): Entries {
    [("unocss", Version)] + if GetTemplateInfo(template).isReact then [("@unocss/preset-react", Version)] else []
  }

  /** `unocss` always, `@unocss/preset-react` exactly for React templates, nothing else. */
  lemma DependenciesContents(template: string)
    ensures var deps := Dependencies(template);
      && UniqueKeys(deps)
      && Get(deps, "unocss") == Some(Version)
      && ("@unocss/preset-react" in Keys(deps) <==> Includes(template, "react"))
      && (Includes(template, "react") ==> Get(deps, "@unocss/preset-react") == Some(Version))
      && (forall k :: k in Keys(deps) ==> k == "unocss" || k == "@unocss/preset-react")
  {
    var deps := Dependencies(template);
    if Includes(template, "react") {
      assert Keys(deps) == ["unocss", "@unocss/preset-react"];
      KeyIn(deps, 1);
      GetIn(deps, "@unocss/preset-react", Version);
    } else {
      assert Keys(deps) == ["unocss"];
    }
  }

  /** Setting the preset on the one-entry object appends it. */
  lemma AddPreset()
    ensures Put([("unocss", Version)], "@unocss/preset-react", Version) == [("unocss", Version), ("@unocss/preset-react", Version)]
  {
    assert IndexOfKey([("unocss", Version)], "@unocss/preset-react") == -1;
  }

  /** `vite.config.ts` for TypeScript templates, `vite.config.js` otherwise. */
  function ViteConfigFile(template: string): (f: string)
    ensures f == "vite.config.ts" <==> Includes(template, "-ts")
    ensures f == "vite.config.js" <==> !Includes(template, "-ts")
  {
    if Includes(template, "-ts") then "vite.config.ts" else "vite.config.js"
  }

  /**
   * The main entry file: `src/main.ts`, or `src/main.tsx` for React; for
   * JavaScript templates the first `.ts` is replaced by `.js`.
   */
  function MainFile(template: string): string {
    var mainFile := if Includes(template, "react") then "src/main.tsx" else "src/main.ts";
    if !Includes(template, "-ts") then ReplaceFirst(mainFile, ".ts", ".js") else mainFile
  }

  lemma ReplaceExtensionTsx()
    ensures ReplaceFirst("src/main.tsx", ".ts", ".js") == "src/main.jsx"
  {
    var a := "src/main.tsx";
    assert IndexOfFrom(a, ".ts", 8) == 8;
    SkipMismatch(a, ".ts", 7);
    SkipMismatch(a, ".ts", 6);
    SkipMismatch(a, ".ts", 5);
    SkipMismatch(a, ".ts", 4);
    SkipMismatch(a, ".ts", 3);
    SkipMismatch(a, ".ts", 2);
    SkipMismatch(a, ".ts", 1);
    SkipMismatch(a, ".ts", 0);
    assert a[..8] + ".js" + a[11..] == "src/main.jsx";
  }

  lemma ReplaceExtensionTs()
    ensures ReplaceFirst("src/main.ts", ".ts", ".js") == "src/main.js"
  {
    var b := "src/main.ts";
    assert IndexOfFrom(b, ".ts", 8) == 8;
    SkipMismatch(b, ".ts", 7);
    SkipMismatch(b, ".ts", 6);
    SkipMismatch(b, ".ts", 5);
    SkipMismatch(b, ".ts", 4);
    SkipMismatch(b, ".ts", 3);
    SkipMismatch(b, ".ts", 2);
    SkipMismatch(b, ".ts", 1);
    SkipMismatch(b, ".ts", 0);
    assert b[..8] + ".js" + b[11..] == "src/main.js";
  }

  /** The four entry files, by framework and language. */
  lemma MainFileTable(template: string)
    ensures var react := Includes(template, "react");
      var ts := Includes(template, "-ts");
      MainFile(template) ==
        if react && ts then "src/main.tsx"
        else if react then "src/main.jsx"
        else if ts then "src/main.ts"
        else "src/main.js"
  {
    ReplaceExtensionTsx();
    ReplaceExtensionTs();
  }

  /** The entry file name is the one the source's `replace('.ts', '.js')` computes, `$` patterns included. */
  lemma MainFileUsesReplace(template: string)
    ensures var mainFile := if Includes(template, "react") then "src/main.tsx" else "src/main.ts";
      MainFile(template) == if !Includes(template, "-ts") then Replace(mainFile, ".ts", ".js") else mainFile
  {
    assert ".js"[0] != '$' && ".js"[1] != '$' && ".js"[2] != '$';
  }

  /**
   * The Vite config edits: the first `from 'vite'` gets the UnoCSS import
   * after it, and the first `plugins: [` gets `UnoCSS(),` on the next line.
   */
  function PatchedConfig(config: string): string {
    var withImport := if Includes(config, ViteAnchor) then ReplaceFirst(config, ViteAnchor, ViteImport) else config;
    if Includes(withImport, PluginsAnchor) then ReplaceFirst(withImport, PluginsAnchor, PluginsEntry) else withImport
  }

  /** The edits are the source's two `replace` calls: neither replacement text contains a `$`. */
  lemma PatchedConfigUsesReplace(config: string)
    ensures var withImport := if Includes(config, ViteAnchor) then Replace(config, ViteAnchor, ViteImport) else config;
      PatchedConfig(config) == if Includes(withImport, PluginsAnchor) then Replace(withImport, PluginsAnchor, PluginsEntry) else withImport
  {
    assert forall k :: 0 <= k < |ViteImport| ==> ViteImport[k] != '$';
    assert forall k :: 0 <= k < |PluginsEntry| ==> PluginsEntry[k] != '$';
  }

  lemma ReplaceFirstKeeps(s: string, pattern: string, replacement: string)
    requires Includes(s, pattern) && IsAt(replacement, pattern, 0)
    ensures Includes(ReplaceFirst(s, pattern, replacement), pattern)
  {
    var i := IndexOfFrom(s, pattern, 0);
    ReplaceFirstAt(s, pattern, replacement);
    OccursInReplacement(s, i, |pattern|, replacement, pattern, 0);
    assert IsAt(ReplaceFirst(s, pattern, replacement), pattern, i);
  }

  lemma AnchorsSurvive()
    ensures IsAt(ViteImport, ViteAnchor, 0) && IsAt(PluginsEntry, PluginsAnchor, 0)
  {
    assert ViteImport[0..|ViteAnchor|] == ViteAnchor;
    assert PluginsEntry[0..|PluginsAnchor|] == PluginsAnchor;
  }

  /**
   * Each edit grows the config whenever its anchor is present, and the
   * anchors survive their own edits; so patching a config that has either
   * anchor a second time adds a second import or a second `UnoCSS()`.
   */
  lemma PatchedConfigNotIdempotent(config: string)
    requires Includes(config, ViteAnchor) || Includes(config, PluginsAnchor)
    ensures |PatchedConfig(PatchedConfig(config))| > |PatchedConfig(config)| > |config|
  {
    AnchorsSurvive();
    var w := if Includes(config, ViteAnchor) then ReplaceFirst(config, ViteAnchor, ViteImport) else config;
    if Includes(config, ViteAnchor) {
      ReplaceFirstKeeps(config, ViteAnchor, ViteImport);
    }
    var p := PatchedConfig(config);
    if Includes(w, PluginsAnchor) {
      ReplaceFirstKeeps(w, PluginsAnchor, PluginsEntry);
      assert Includes(p, PluginsAnchor);
    }
    var w2 := if Includes(p, ViteAnchor) then ReplaceFirst(p, ViteAnchor, ViteImport) else p;
    if Includes(p, ViteAnchor) {
      ReplaceFirstKeeps(p, ViteAnchor, ViteImport);
    }
    if !Includes(p, ViteAnchor) {
      // The plugins edit happened, and it never removes `from 'vite'` text it did not touch.
      assert !Includes(w, ViteAnchor) || Includes(p, ViteAnchor) by {
        if Includes(w, ViteAnchor) && Includes(w, PluginsAnchor) {
          PluginsEditKeepsViteAnchor(w);
        }
      }
      assert Includes(p, PluginsAnchor);
      assert Includes(w2, PluginsAnchor);
    }
  }

  /** The plugins edit keeps a `from 'vite'` that is already there. */
  lemma PluginsEditKeepsViteAnchor(w: string)
    requires Includes(w, ViteAnchor) && Includes(w, PluginsAnchor)
    ensures Includes(ReplaceFirst(w, PluginsAnchor, PluginsEntry), ViteAnchor)
  {
    var q :| IsAt(w, ViteAnchor, q);
    var i := IndexOfFrom(w, PluginsAnchor, 0);
    var r := w[..i] + PluginsEntry + w[i + |PluginsAnchor|..];
    assert ReplaceFirst(w, PluginsAnchor, PluginsEntry) == r;
    NoOverlap(w, q, i);
    OccurrenceSurvivesReplace(w, i, |PluginsAnchor|, PluginsEntry, ViteAnchor, q);
    var q' := if q + |ViteAnchor| <= i then q else q + |PluginsEntry| - |PluginsAnchor|;
    assert IsAt(r, ViteAnchor, q');
  }

  /** `plugins: [` and `from 'vite'` cannot overlap: their first characters occur nowhere in the other. */
  lemma NoOverlap(w: string, q: nat, i: nat)
    requires IsAt(w, ViteAnchor, q) && IsAt(w, PluginsAnchor, i)
    ensures q + |ViteAnchor| <= i || i + |PluginsAnchor| <= q
  {
    assert 'p' !in ViteAnchor && 'f' !in PluginsAnchor;
    if q <= i < q + |ViteAnchor| {
      CharOfOccurrence(w, ViteAnchor, q, i - q);
      CharOfOccurrence(w, PluginsAnchor, i, 0);
      assert false;
    } else if i <= q < i + |PluginsAnchor| {
      CharOfOccurrence(w, PluginsAnchor, i, q - i);
      CharOfOccurrence(w, ViteAnchor, q, 0);
      assert false;
    }
  }

  function ConfigPath(root: string): string {
    Join(root, "uno.config.js")
  }

  function VitePath(root: string, template: string): string {
    Join(root, ViteConfigFile(template))
  }

  function MainPath(root: string, template: string): string {
    Join(root, MainFile(template))
  }

  /** The Vite config step: rewrite the config with the patched text when it exists. */
  function ViteStep(root: string, template: string, files: Files, faults: Faults): (Files, Outcome) {
    var vp := VitePath(root, template);
    if vp in files then Write(files, faults, vp, PatchedConfig(files[vp])) else (files, Success)
  }

  /** The entry step: prepend the virtual stylesheet import when the entry file exists. */
  function MainStep(root: string, template: string, files: Files, faults: Faults): (Files, Outcome) {
    var mp := MainPath(root, template);
    if mp in files then Write(files, faults, mp, MainImport + files[mp]) else (files, Success)
  }

  /** The Vite config step, then the entry step, each stopping setup when its write fails. */
  function LaterSteps(root: string, template: string, files: Files, faults: Faults): (Files, Outcome) {
    var (files2, viteWrite) := ViteStep(root, template, files, faults);
    if viteWrite.Failure? then
      (files2, StepFailed("update " + ViteConfigFile(template), viteWrite.error))
    else
      var (files3, mainWrite) := MainStep(root, template, files2, faults);
      (files3, if mainWrite.Failure? then StepFailed("update " + MainFile(template), mainWrite.error) else Success)
  }

  /** The file edits of setup: `uno.config.js`, then the later steps unless that write threw. */
  function FileSteps(root: string, template: string, files: Files, faults: Faults): (Files, Outcome) {
    var (files1, configWrite) := Write(files, faults, ConfigPath(root), UnoConfigText);
    if configWrite.Failure? then (files1, StepFailed("create uno.config.js", configWrite.error))
    else LaterSteps(root, template, files1, faults)
  }

  /** What `unocssPlugin.setup(root, template, pkg)` does to the manifest and the files. */
  function SetupEffect(root: string, template: string, pkg: Manifest, files: Files, faults: Faults): Effect {
    var (files', outcome) := FileSteps(root, template, files, faults);
    Effect(MergedDependencies(pkg, Dependencies(template), DevDependencies), files', outcome)
  }

  /** `unocssPlugin.setup`: each failed write throws, leaving the later steps undone. */
  method Setup(root: string, template: string, pkg: Package, fs: FileSystem) returns (r: Outcome)
    modifies pkg, fs
    ensures Effect(pkg.Value(), fs.files, r) == SetupEffect(root, template, old(pkg.Value()), old(fs.files), fs.faults)
  {
    var info := GetTemplateInfo(template);
    var dependencies: Entries := [("unocss", "^0.64.6")];
    if info.isReact {
      dependencies := Put(dependencies, "@unocss/preset-react", "^0.64.6");
      AddPreset();
    }
    assert dependencies == Dependencies(template);
    pkg.MergeDependencies(dependencies, DevDependencies);

    var result := fs.WriteFile(Join(root, "uno.config.js"), Text(UnoConfigText));
    if result.Failure? {
      return StepFailed("create uno.config.js", result.error);
    }

    ghost var files1 := fs.files;
    var viteConfigFile := ViteConfigFile(template);
    var viteConfigPath := Join(root, viteConfigFile);
    if fs.Exists(viteConfigPath) {
      var viteConfig := fs.Read(viteConfigPath);
      result := fs.WriteFile(viteConfigPath, Text(PatchedConfig(viteConfig)));
      if result.Failure? {
        return StepFailed("update " + viteConfigFile, result.error);
      }
    }
    assert (fs.files, Success) == ViteStep(root, template, files1, fs.faults);

    ghost var files2 := fs.files;
    var mainFile := MainFile(template);
    var mainPath := Join(root, mainFile);
    if fs.Exists(mainPath) {
      var mainContent := fs.Read(mainPath);
      result := fs.WriteFile(mainPath, Text(MainImport + mainContent));
      if result.Failure? {
        assert (fs.files, result) == MainStep(root, template, files2, fs.faults);
        return StepFailed("update " + mainFile, result.error);
      }
    }
    return Success;
  }

  /** A failure is reported with a message starting `Failed to `. */
  lemma SetupFailureMessage(root: string, template: string, pkg: Manifest, files: Files, faults: Faults)
    ensures var o := SetupEffect(root, template, pkg, files, faults).outcome;
      o.Failure? ==> "Failed to " <= o.error
  {
    assert SetupEffect(root, template, pkg, files, faults).outcome == FileSteps(root, template, files, faults).1;
    var (files1, c) := Write(files, faults, ConfigPath(root), UnoConfigText);
    var o := FileSteps(root, template, files, faults).1;
    if c.Failure? {
      assert o == StepFailed("create uno.config.js", c.error);
    } else {
      assert o == LaterSteps(root, template, files1, faults).1;
      LaterStepsFailureMessage(root, template, files1, faults);
    }
  }

  lemma LaterStepsFailureMessage(root: string, template: string, files: Files, faults: Faults)
    ensures var o := LaterSteps(root, template, files, faults).1;
      o.Failure? ==> "Failed to " <= o.error
  {
    var (files2, v) := ViteStep(root, template, files, faults);
    var o := LaterSteps(root, template, files, faults).1;
    if v.Failure? {
      assert o == StepFailed("update " + ViteConfigFile(template), v.error);
    } else {
      var (files3, m) := MainStep(root, template, files2, faults);
      if m.Failure? {
        assert o == StepFailed("update " + MainFile(template), m.error);
      }
    }
  }

  /** The later steps touch only the Vite config and the entry file. */
  lemma LaterStepsFrame(root: string, template: string, files: Files, faults: Faults)
    ensures var f := LaterSteps(root, template, files, faults).0;
      forall p :: p != VitePath(root, template) && p != MainPath(root, template) ==>
        (p in f <==> p in files) && (p in files ==> f[p] == files[p])
  {
  }

  /**
   * devDependencies gains `unocss` and, exactly for React templates,
   * `@unocss/preset-react`, both at `^0.64.6`; every other entry is kept and
   * the object is sorted by key; dependencies and scripts are untouched.
   */
  lemma SetupManifest(root: string, template: string, pkg: Manifest, files: Files, faults: Faults)
    requires WellFormed(pkg)
    ensures var m := SetupEffect(root, template, pkg, files, faults).pkg;
      var before := pkg.devDependencies.GetOr([]);
      && m.devDependencies.Some?
      && Get(m.devDependencies.value, "unocss") == Some(Version)
      && Get(m.devDependencies.value, "@unocss/preset-react") ==
           (if Includes(template, "react") then Some(Version) else Get(before, "@unocss/preset-react"))
      && Ascending(m.devDependencies.value)
      && (forall k :: k != "unocss" && k != "@unocss/preset-react" ==> Get(m.devDependencies.value, k) == Get(before, k))
      && m.dependencies == pkg.dependencies && m.scripts == pkg.scripts
      && WellFormed(m)
  {
    var deps := Dependencies(template);
    assert SetupEffect(root, template, pkg, files, faults).pkg == MergedDependencies(pkg, deps, DevDependencies);
    DependenciesContents(template);
    KeyIn(deps, 0);
    GetIn(deps, "unocss", Version);
    MergeDependenciesContents(pkg, deps, DevDependencies);
  }

  /**
   * `uno.config.js` is always written first; when that write fails, setup
   * stops with `Failed to create uno.config.js: <cause>` and no file changed.
   */
  lemma SetupUnoConfig(root: string, template: string, pkg: Manifest, files: Files, faults: Faults)
    ensures var e := SetupEffect(root, template, pkg, files, faults);
      var cp := ConfigPath(root);
      && (cp in faults ==> e.files == files && e.outcome == StepFailed("create uno.config.js", faults[cp]))
      && (cp !in faults ==> cp in e.files && e.files[cp] == UnoConfigText)
  {
    var cp := ConfigPath(root);
    var vp := VitePath(root, template);
    var mp := MainPath(root, template);
    MainFileTable(template);
    if cp == vp {
      JoinInjective(root, "uno.config.js", ViteConfigFile(template));
    }
    if cp == mp {
      JoinInjective(root, "uno.config.js", MainFile(template));
    }
    if cp !in faults {
      LaterStepsFrame(root, template, files[cp := UnoConfigText], faults);
    }
  }

  /**
   * A missing Vite config or entry file is skipped without error; a present
   * one is rewritten (patched config, import in front of the entry file);
   * failed writes are reported under the file's relative name.
   */
  lemma SetupLaterSteps(root: string, template: string, pkg: Manifest, files: Files, faults: Faults)
    requires ConfigPath(root) !in faults
    ensures var e := SetupEffect(root, template, pkg, files, faults);
      var vp := VitePath(root, template);
      var mp := MainPath(root, template);
      && (vp in files && vp in faults ==>
            && e.files == files[ConfigPath(root) := UnoConfigText]
            && e.outcome == StepFailed("update " + ViteConfigFile(template), faults[vp]))
      && (vp in files && vp !in faults ==> vp in e.files && e.files[vp] == PatchedConfig(files[vp]))
      && (vp !in files || vp !in faults ==>
            && (mp in files && mp in faults ==>
                  && e.files == (if vp in files then files[ConfigPath(root) := UnoConfigText][vp := PatchedConfig(files[vp])]
                                 else files[ConfigPath(root) := UnoConfigText])
                  && e.outcome == StepFailed("update " + MainFile(template), faults[mp]))
            && (mp in files && mp !in faults ==> mp in e.files && e.files[mp] == MainImport + files[mp] && e.outcome == Success)
            && (mp !in files ==> mp !in e.files && e.outcome == Success))
  {
    var cp := ConfigPath(root);
    var vp := VitePath(root, template);
    var mp := MainPath(root, template);
    MainFileTable(template);
    if cp == vp {
      JoinInjective(root, "uno.config.js", ViteConfigFile(template));
    }
    if cp == mp {
      JoinInjective(root, "uno.config.js", MainFile(template));
    }
    if vp == mp {
      JoinInjective(root, ViteConfigFile(template), MainFile(template));
    }
    var files1 := files[cp := UnoConfigText];
    var e := SetupEffect(root, template, pkg, files, faults);
    assert (e.files, e.outcome) == LaterSteps(root, template, files1, faults);
    LaterStepsCases(root, template, files1, faults);
  }

  /** The later steps in closed form, for distinct Vite config and entry paths. */
  lemma LaterStepsCases(root: string, template: string, files: Files, faults: Faults)
    requires VitePath(root, template) != MainPath(root, template)
    ensures var (f, o) := LaterSteps(root, template, files, faults);
      var vp := VitePath(root, template);
      var mp := MainPath(root, template);
      && (vp in files && vp in faults ==>
            f == files && o == StepFailed("update " + ViteConfigFile(template), faults[vp]))
      && (vp in files && vp !in faults ==> vp in f && f[vp] == PatchedConfig(files[vp]))
      && (vp !in files || vp !in faults ==>
            && (mp in files && mp in faults ==>
                  && f == (if vp in files then files[vp := PatchedConfig(files[vp])] else files)
                  && o == StepFailed("update " + MainFile(template), faults[mp]))
            && (mp in files && mp !in faults ==> mp in f && f[mp] == MainImport + files[mp] && o == Success)
            && (mp !in files ==> mp !in f && o == Success))
  {
  }

  /**
   * The entry-file prepend is unconditional: two runs on an entry file that
   * exists and can be written leave two import lines in front of it.
   */
  lemma SetupTwiceDoublesImport(root: string, template: string, pkg: Manifest, files: Files, faults: Faults)
    requires ConfigPath(root) !in faults && VitePath(root, template) !in faults && MainPath(root, template) !in faults
    requires MainPath(root, template) in files
    ensures var e1 := SetupEffect(root, template, pkg, files, faults);
      var e2 := SetupEffect(root, template, e1.pkg, e1.files, faults);
      var mp := MainPath(root, template);
      mp in e2.files && e2.files[mp] == MainImport + MainImport + files[mp]
  {
    var e1 := SetupEffect(root, template, pkg, files, faults);
    var mp := MainPath(root, template);
    SetupLaterSteps(root, template, pkg, files, faults);
    assert mp in e1.files && e1.files[mp] == MainImport + files[mp];
    SetupLaterSteps(root, template, e1.pkg, e1.files, faults);
  }
}
