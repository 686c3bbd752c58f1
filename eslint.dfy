/**
 * plugins/eslint.js: the Antfu ESLint plugin. Its setup adds two
 * devDependencies and two scripts and writes a fixed flat-config file; it
 * does not look at the template.
 */
module Eslint {
  import opened Wrappers
  import opened JsObject
  import opened Utils

  const Name: string := "eslint"
  const Title: string := "ESLint (Antfu)"
  const Description: string := "Code quality and linting with @antfu/eslint-config"

  const DevDeps: Entries := [("eslint", "^9.39.1"), ("@antfu/eslint-config", "^6.2.0")]
  const LintScripts: Entries := [("lint", "eslint ."), ("lint:fix", "eslint . --fix")]
  const ConfigText: string := "import antfu from '@antfu/eslint-config'\n\nexport default antfu()\n"

  function ConfigPath(root: string): string {
    Join(root, "eslint.config.mjs")
  }

  /** What `eslintPlugin.setup(root, template, pkg)` does to the manifest and the files. */
  function SetupEffect(root: string, template: string, pkg: Manifest, files: Files, faults: Faults): Effect {
    var pkg' := MergedScripts(MergedDependencies(pkg, DevDeps, DevDependencies), LintScripts);
    var (files', written) := Write(files, faults, ConfigPath(root), ConfigText);
    Effect(pkg', files',
      if written.Success? then Success
      else StepFailed("create eslint.config.mjs", written.error))
  }

  /** `eslintPlugin.setup`: merges, then the config write; a failed write throws. */
  method Setup(root: string, template: string, pkg: Package, fs: FileSystem) returns (r: Outcome)
    modifies pkg, fs
    ensures Effect(pkg.Value(), fs.files, r) == SetupEffect(root, template, old(pkg.Value()), old(fs.files), fs.faults)
  {
    pkg.MergeDependencies(DevDeps);
    pkg.MergeScripts(LintScripts);
    var result := fs.WriteFile(Join(root, "eslint.config.mjs"), Text(ConfigText));
    if result.Failure? {
      return StepFailed("create eslint.config.mjs", result.error);
    }
    return Success;
  }

  lemma FixedEntriesUnique()
    ensures UniqueKeys(DevDeps) && UniqueKeys(LintScripts)
  {
  }

  /**
   * After setup, devDependencies holds `eslint` and `@antfu/eslint-config` at
   * their versions in ascending key order, every other entry as before;
   * scripts holds `lint` and `lint:fix`, the existing scripts keep their
   * positions and other scripts their values, and the new keys follow;
   * dependencies is untouched. This holds
   * whether or not the config write then fails.
   */
  lemma SetupManifest(root: string, template: string, pkg: Manifest, files: Files, faults: Faults)
    requires WellFormed(pkg)
    ensures var m := SetupEffect(root, template, pkg, files, faults).pkg;
      && m.devDependencies.Some? && m.scripts.Some?
      && Get(m.devDependencies.value, "eslint") == Some("^9.39.1")
      && Get(m.devDependencies.value, "@antfu/eslint-config") == Some("^6.2.0")
      && Ascending(m.devDependencies.value)
      && (forall k :: k !in Keys(DevDeps) ==> Get(m.devDependencies.value, k) == Get(pkg.devDependencies.GetOr([]), k))
      && Get(m.scripts.value, "lint") == Some("eslint .")
      && Get(m.scripts.value, "lint:fix") == Some("eslint . --fix")
      && Keys(m.scripts.value) == Keys(pkg.scripts.GetOr([])) + NewKeys(Keys(pkg.scripts.GetOr([])), Keys(LintScripts))
      && (forall k :: k !in Keys(LintScripts) ==> Get(m.scripts.value, k) == Get(pkg.scripts.GetOr([]), k))
      && m.dependencies == pkg.dependencies
      && WellFormed(m)
  {
    FixedEntriesUnique();
    var m1 := MergedDependencies(pkg, DevDeps, DevDependencies);
    MergeDependenciesContents(pkg, DevDeps, DevDependencies);
    MergeScriptsContents(m1, LintScripts);
    MergeScriptsWellFormed(m1, LintScripts);
    KeyIn(DevDeps, 0);
    KeyIn(DevDeps, 1);
    KeyIn(LintScripts, 0);
    KeyIn(LintScripts, 1);
    GetIn(DevDeps, "eslint", "^9.39.1");
    GetIn(DevDeps, "@antfu/eslint-config", "^6.2.0");
    GetIn(LintScripts, "lint", "eslint .");
    GetIn(LintScripts, "lint:fix", "eslint . --fix");
  }

  /**
   * The config file gets exactly the fixed text and no other file changes; a
   * failed write is reported as `Failed to create eslint.config.mjs: <cause>`.
   */
  lemma SetupFiles(root: string, template: string, pkg: Manifest, files: Files, faults: Faults)
    ensures var e := SetupEffect(root, template, pkg, files, faults);
      var path := Join(root, "eslint.config.mjs");
      && (path !in faults ==> e.files == files[path := ConfigText] && e.outcome == Success)
      && (path in faults ==>
           e.files == files && e.outcome == StepFailed("create eslint.config.mjs", faults[path]))
  {
  }

  /** A failure is reported with a message starting `Failed to `. */
  lemma SetupFailureMessage(root: string, template: string, pkg: Manifest, files: Files, faults: Faults)
    ensures var o := SetupEffect(root, template, pkg, files, faults).outcome;
      o.Failure? ==> "Failed to " <= o.error
  {
    SetupFiles(root, template, pkg, files, faults);
  }

  /** The template argument is ignored. */
  lemma SetupIgnoresTemplate(root: string, t1: string, t2: string, pkg: Manifest, files: Files, faults: Faults)
    ensures SetupEffect(root, t1, pkg, files, faults) == SetupEffect(root, t2, pkg, files, faults)
  {
  }

  /** The manifest edits of setup, applied twice, give what applying them once gives. */
  lemma ManifestEditsIdempotent(pkg: Manifest)
    requires WellFormed(pkg)
    ensures var m := MergedScripts(MergedDependencies(pkg, DevDeps, DevDependencies), LintScripts);
      MergedScripts(MergedDependencies(m, DevDeps, DevDependencies), LintScripts) == m
  {
    FixedEntriesUnique();
    var m1 := MergedDependencies(pkg, DevDeps, DevDependencies);
    var m2 := MergedScripts(m1, LintScripts);
    MergeDependenciesContents(pkg, DevDeps, DevDependencies);
    MergeDependenciesIdempotent(pkg, DevDeps, DevDependencies);
    MergeScriptsIdempotent(m1, LintScripts);
    assert MergedDependencies(m2, DevDeps, DevDependencies) == MergedScripts(MergedDependencies(m1, DevDeps, DevDependencies), LintScripts);
  }

  /** Running setup a second time on its own result changes nothing and returns the same way. */
  lemma SetupIdempotent(root: string, template: string, pkg: Manifest, files: Files, faults: Faults)
    requires WellFormed(pkg)
    ensures var e := SetupEffect(root, template, pkg, files, faults);
      SetupEffect(root, template, e.pkg, e.files, faults) == e
  {
    ManifestEditsIdempotent(pkg);
    var path := ConfigPath(root);
    if path !in faults {
      assert files[path := ConfigText][path := ConfigText] == files[path := ConfigText];
    }
  }
}
