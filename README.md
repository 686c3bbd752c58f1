# mini-create-vite plugin core, in Dafny

This project models the core of `mini-create-vite`, a `create-vite`-style project
scaffolder. After a project has been copied from a Vue or React template, the tool
can run three plugins: ESLint (Antfu), Tailwind CSS v4 and UnoCSS. Each plugin edits
the in-memory `package.json` object (it merges devDependencies and scripts) and then
creates or patches files in the new project: `eslint.config.mjs`, `vite.config.*`,
`uno.config.js`, the stylesheet and the main entry file.

`applyPlugins` sorts the selected plugin names by a priority table. It runs each
plugin and records it under `success` or `failed`. A plugin that throws stops only
itself; the next plugin still runs.

The command-line entry point also has a few pure helpers. They normalise the
target directory, check and repair npm package names, decide whether a directory
is empty, and list the template names. These are modelled too.

The modules follow the source files:

- `Utils` is `plugins/utils.js`. It holds the template facets, the `package.json`
  object (`class Package`, whose merge methods update it in place) and the file
  tree (`class FileSystem`, whose methods are `writeFile` and `injectContent`).
- `Eslint`, `Tailwind` and `Unocss` are the three plugin files.
- `PluginRegistry` is `plugins/index.js`.
- `Cli` covers the helpers of `index.js`.
- `JsString` and `JsObject` state the JavaScript built-ins the source relies on:
  - `JsString` models `indexOf`, `lastIndexOf`, `includes` and a `replace` with a
    string pattern;
  - `JsObject` models the insertion order of object keys, `Object.assign`, and the
    default `Array.prototype.sort` on keys.

What the model takes as given:

- The file system is a map from path to contents, held in the `files` field of
  `FileSystem`.
- Write failures come from an oracle. `faults` maps a path to the error message its
  write fails with, and a failed write changes nothing.
- A `throw new Error(msg)` in a plugin's `setup` becomes the outcome `Failure(msg)`.
  A `{ success: false, error }` from `writeFile` does the same.

Each plugin's `Setup` method is proved to equal a pure `SetupEffect` on the old
manifest, the old files and the fault oracle. The lemmas about plugin behaviour are
proved about `SetupEffect`. `PluginRegistry.ApplyPlugins` is a loop. Its invariant
ties the state after `i` iterations to the fold `ApplyAll` over the first `i` sorted
names.

## Model

| member | source | states |
|---|---|---|
| Utils.GetTemplateInfo | plugins/utils.js:9-32 | TypeScript iff the name contains `-ts`, JavaScript is its negation; React/Vue by substring; framework is `react` if React, else `vue` if Vue, else `vanilla`; language and display name follow |
| Utils.StepFailed | plugins/eslint.js:47 | the error a failed file step throws is a failure whose message starts with `Failed to ` |
| Utils.MergedDependencies | plugins/utils.js:96-110 | `mergeDependencies` on a manifest value: create the sub-object if absent, `Object.assign` the entries, rebuild in sorted key order; its contract is `MergeDependenciesContents` and `MergeDependenciesIdempotent` |
| Utils.MergedScripts | plugins/utils.js:117-123 | `mergeScripts` on a manifest value: create `scripts` if absent and `Object.assign` the entries, without sorting; its contract is `MergeScriptsContents`, `MergeScriptsWellFormed`, `MergeScriptsKeepsInsertionOrder` and `MergeScriptsIdempotent` |
| Utils.MergeDependenciesContents | plugins/utils.js:96-110 | after `mergeDependencies` the chosen sub-object exists, has every old key and every new key, new values win, keys are unique and strictly ascending, and every other field is unchanged |
| Utils.MergeScriptsContents | plugins/utils.js:117-123 | after `mergeScripts` existing keys keep their positions (new values where given), new keys follow in argument order, nothing is sorted, other fields unchanged |
| Utils.MergeScriptsWellFormed | plugins/utils.js:117-123 | merging scripts keeps every sub-object's keys unique |
| Utils.MergeScriptsKeepsInsertionOrder | plugins/utils.js:117-123 | merging `{b}` then `{a}` leaves the scripts in order `b`, `a` |
| Utils.AllPresent | plugins/utils.js:101 | after `Object.assign` every merged entry is present with its value |
| Utils.MergeDependenciesIdempotent | plugins/utils.js:96-110 | merging the same dependencies twice equals merging them once |
| Utils.MergeScriptsIdempotent | plugins/utils.js:117-123 | merging the same scripts twice equals merging them once |
| Utils.Package.MergeDependencies | plugins/utils.js:96-110 | the object's new state is the merged manifest: create if absent, assign, rebuild in sorted key order |
| Utils.Package.MergeScripts | plugins/utils.js:117-123 | the object's new state is the manifest with scripts created if absent and assigned |
| Utils.JoinInjective | plugins/tailwind.js:35 | two different relative names under one root give different paths |
| Utils.Render | plugins/utils.js:47-49 | the text `writeFile` writes: a string verbatim, an object as `Stringify` plus a newline; `FileSystem.WriteFile` states it |
| Utils.Write | plugins/utils.js:39-56 | a write through the fault oracle: a path with a fault keeps the tree and yields its error, any other path gets the text and success; `FileSystem.WriteFile` and every plugin step lemma state it |
| Utils.Stringify | plugins/utils.js:48 | the JSON text of the modelled fields, two-space indented (see Left out); used only by `Render` |
| Utils.Inject | plugins/utils.js:65-88 | a missing file gives `File not found`, a missing search string gives `Search string not found: <s>`, both without change; otherwise `Injected` text is written through the fault oracle |
| Utils.Injected | plugins/utils.js:77-81 | the text `injectContent` writes: `replace` of the search string by `insert + search` or `search + insert`; its contract is `InjectSplices` and `InjectInsertsLiterally` |
| Utils.InjectSplices | plugins/utils.js:77-81 | with the search string present, its first occurrence is replaced by `insert + search` (`"before"`) or `search + insert` (any other position), with the `$` patterns of `replace` expanded |
| Utils.InjectInsertsLiterally | plugins/utils.js:77-81 | when neither the insert nor the search string contains `$`, the insert lands just before or just after the first occurrence |
| Utils.FileSystem.WriteFile | plugins/utils.js:39-56 | without a fault the file holds the rendered content (JSON plus newline for an object) and the result is success; with one nothing changes and the error is returned |
| Utils.FileSystem.InjectContent | plugins/utils.js:65-88 | the new file tree and result are those of `Inject` |
| JsString.IndexOfFrom | plugins/tailwind.js:44 | the result is -1 or the first occurrence at or after `from` |
| JsString.LastIndexOf | plugins/tailwind.js:43 | the result is -1 or the last occurrence |
| JsString.Includes | plugins/tailwind.js:40 | true exactly when the needle occurs somewhere |
| JsString.ReplaceFirst | plugins/unocss.js:66-79 | the literal first-occurrence splice: without an occurrence the text is unchanged; otherwise its length changes by the replacement's length minus the pattern's; `Replace` equals it for a replacement without `$` |
| JsString.ReplaceFirstAt | plugins/unocss.js:66-79 | with an occurrence, the replacement is spliced over the first occurrence and nowhere else |
| JsString.Substitute | plugins/utils.js:78 | the replacement template of `replace` for a string pattern: `$$`, `$&`, `` $` `` and `$'` expand, and a template without `$` is returned as it is |
| JsString.Replace | plugins/utils.js:78 | `replace` with a string pattern: unchanged without an occurrence, and equal to the literal splice `ReplaceFirst` when the replacement has no `$` |
| JsString.ReplaceAt | plugins/utils.js:78 | with an occurrence, the expanded replacement goes over the first occurrence and nowhere else |
| JsString.ReplaceExpandsMatch | plugins/utils.js:78 | `"ab".replace("a", "[$&]")` is `"[a]b"` |
| JsString.ReplaceExpandsDollar | plugins/utils.js:80 | `"ab".replace("b", "$$")` is `"a$"` |
| JsString.ReplaceExpandsContext | plugins/utils.js:80 | `"abc".replace("b", "$'$`")` is `"acac"` |
| JsString.ReplaceKeepsGroupReference | plugins/utils.js:78 | a string pattern has no groups, so `"ab".replace("a", "$1")` is `"$1b"` |
| JsObject.Assign | plugins/utils.js:101 | `Object.assign(target, source)` on ordered entries: each source entry overwrites the key in place or is appended; its contract is `AssignKeys`, `AssignGet` and `Utils.AllPresent` |
| JsObject.AssignKeys | plugins/utils.js:101 | `Object.assign` keeps the target's keys in place and appends the new keys in source order |
| JsObject.AssignGet | plugins/utils.js:101 | after `Object.assign` a key has the source's value if the source has it, else the target's |
| JsObject.SortByKey | plugins/utils.js:104-109 | `Object.keys(o).sort().reduce(...)`: the entries rebuilt in ascending key order; its contract is `SortAscending`, `SortPermutes` and `SortByKeyGet` |
| JsObject.SortAscending | plugins/utils.js:104-109 | the key-sorted rebuild is strictly ascending for unique keys |
| JsObject.SortPermutes | plugins/utils.js:104-109 | the key-sorted rebuild holds the same entries |
| JsObject.SortByKeyGet | plugins/utils.js:104-109 | the key-sorted rebuild maps every key to the same value |
| Eslint.SetupEffect | plugins/eslint.js:23-51 | what setup does: both merges, then the config write, a failed write becoming `Failed to create eslint.config.mjs: <cause>`; its contract is `Setup`, `SetupManifest`, `SetupFiles`, `SetupFailureMessage`, `SetupIgnoresTemplate` and `SetupIdempotent` |
| Eslint.Setup | plugins/eslint.js:23-51 | the manifest, files and outcome after the call are `SetupEffect` of the old ones |
| Eslint.SetupManifest | plugins/eslint.js:27-36 | devDependencies gets `eslint` `^9.39.1` and `@antfu/eslint-config` `^6.2.0`, sorted, others kept; scripts gets `lint` and `lint:fix`, existing scripts keep their positions and other scripts their values, new keys follow; dependencies untouched; holds even when the write then fails |
| Eslint.SetupFiles | plugins/eslint.js:39-48 | the config file gets the fixed flat config and nothing else changes; a failed write gives `Failed to create eslint.config.mjs: <cause>` and no file change |
| Eslint.SetupFailureMessage | plugins/eslint.js:39-48 | whenever setup fails, its message starts with `Failed to ` |
| Eslint.SetupIgnoresTemplate | plugins/eslint.js:20-23 | the template argument has no effect |
| Eslint.ManifestEditsIdempotent | plugins/eslint.js:27-36 | the two merges applied again change nothing |
| Eslint.SetupIdempotent | plugins/eslint.js:23-51 | a second setup on the first's result changes nothing and gives the same outcome |
| Tailwind.WithImport | plugins/tailwind.js:40-48 | the import line inserted after the line of the last `import`, unless `@tailwindcss/vite` is already mentioned; its contract is `ImportPositionAfterLastImport` and `WithImportMentionsPackage` |
| Tailwind.ImportPosition | plugins/tailwind.js:43-47 | the insertion index lies within the config |
| Tailwind.ImportPositionAfterLastImport | plugins/tailwind.js:43-47 | the import goes right after the first newline after the last `import`, or at the start when there is none (the `-1 + 1` case) |
| Tailwind.WithImportMentionsPackage | plugins/tailwind.js:40-48 | afterwards `@tailwindcss/vite` is mentioned, and the config is either unchanged or has the import line inserted at that position |
| Tailwind.SkipSpaces | plugins/tailwind.js:54 | the end of the white-space run: everything skipped is space, the next is not |
| Tailwind.NextClose | plugins/tailwind.js:54 | the first `]` at or after a position, or the end |
| Tailwind.MatchAtIsPatternMatch | plugins/tailwind.js:54 | the scan finds a match at `i` ending at `k` exactly when `plugins:\s*\[[^\]]+\]` matches there with that `]` |
| Tailwind.FirstMatchFrom | plugins/tailwind.js:53-56 | the result is the leftmost match, or none when no position matches |
| Tailwind.AddPluginCall | plugins/tailwind.js:52-57 | the regex replace: `, tailwindcss()` inserted before the `]` of the leftmost `plugins:\s*\[[^\]]+\]` match; its contract is `AddPluginCallIsFirstMatchReplace`, `EmptyPluginsUnchanged`, `ReactPluginsExample`, `AddPluginCallKeeps` and `AddPluginCallAddsCall` |
| Tailwind.AddPluginCallIsFirstMatchReplace | plugins/tailwind.js:53-56 | without a match the config is unchanged; otherwise `, tailwindcss()` goes just before the leftmost match's `]` |
| Tailwind.EmptyPluginsUnchanged | plugins/tailwind.js:54 | `plugins: []` does not match, so the call is not added |
| Tailwind.ReactPluginsExample | plugins/tailwind.js:53-56 | `plugins: [react()]` becomes `plugins: [react(), tailwindcss()]` |
| Tailwind.AddPluginCallKeeps | plugins/tailwind.js:53-56 | the edit keeps every occurrence of a text without `]` |
| Tailwind.AddPluginCallAddsCall | plugins/tailwind.js:53-56 | with a match, the edited text mentions `tailwindcss()` |
| Tailwind.PatchedConfig | plugins/tailwind.js:40-57 | the import edit, then the plugin-call edit unless `tailwindcss()` is already there; its contract is `PatchedConfigMentionsPackage` and `PatchedConfigIdempotent` |
| Tailwind.PatchedConfigMentionsPackage | plugins/tailwind.js:40-57 | after both edits the package import is present |
| Tailwind.PatchedConfigIdempotent | plugins/tailwind.js:40-57 | patching a patched config changes nothing |
| Tailwind.CssFile | plugins/tailwind.js:66 | `src/style.css` exactly for Vue templates, `src/index.css` otherwise |
| Tailwind.ConfigStep | plugins/tailwind.js:35-63 | `vite.config.ts`, when present, is written with the patched text through the fault oracle; `SetupConfigFile` and `ConfigStepStable` state it |
| Tailwind.CssStep | plugins/tailwind.js:66-80 | the stylesheet, when present and without `@import "tailwindcss"`, is written with the import in front; `SetupCssFile` and `CssStepStable` state it |
| Tailwind.SetupEffect | plugins/tailwind.js:23-84 | what setup does: the merge, the config step, then the stylesheet step unless the config write threw; its contract is `Setup`, `SetupManifest`, `SetupConfigFile`, `SetupCssFile`, `SetupFrame`, `SetupWithoutFiles`, `SetupFailureMessage` and `SetupIdempotent` |
| Tailwind.Setup | plugins/tailwind.js:23-84 | the manifest, files and outcome after the call are `SetupEffect` of the old ones |
| Tailwind.SetupManifest | plugins/tailwind.js:29-32 | devDependencies gains `tailwindcss` and `@tailwindcss/vite` at `^4.1.0`, sorted, others kept; dependencies and scripts untouched |
| Tailwind.PathsDiffer | plugins/tailwind.js:35-67 | the config path and the stylesheet path differ |
| Tailwind.SetupConfigFile | plugins/tailwind.js:35-63 | only `vite.config.ts` is patched, whatever the template; when missing it is skipped; a failed write gives `Failed to update vite.config.ts: <cause>` and no file change |
| Tailwind.SetupCssFile | plugins/tailwind.js:66-80 | a missing stylesheet is skipped; one with `@import "tailwindcss"` is kept; otherwise the import is prepended, or the failure gives `Failed to update <file>: <cause>` |
| Tailwind.SetupFrame | plugins/tailwind.js:23-84 | no file but the config and the stylesheet changes |
| Tailwind.SetupWithoutFiles | plugins/tailwind.js:35-80 | with neither `vite.config.ts` nor the stylesheet present, setup changes no file and succeeds |
| Tailwind.SetupFailureMessage | plugins/tailwind.js:59-78 | whenever setup fails, its message starts with `Failed to ` |
| Tailwind.ConfigStepStable | plugins/tailwind.js:35-63 | after a successful config step, a second one succeeds and changes nothing |
| Tailwind.CssStepKeepsConfig | plugins/tailwind.js:66-80 | the stylesheet step leaves a fully patched config fully patched |
| Tailwind.CssStepStable | plugins/tailwind.js:69-80 | a second stylesheet step changes nothing more and repeats the outcome |
| Tailwind.SetupIdempotent | plugins/tailwind.js:23-84 | a second setup on the first's result changes nothing and gives the same outcome |
| Unocss.Dependencies | plugins/unocss.js:28-34 | `unocss`, then `@unocss/preset-react` for React templates; its contract is `DependenciesContents` and `AddPreset` |
| Unocss.DependenciesContents | plugins/unocss.js:28-34 | `unocss` always, `@unocss/preset-react` exactly for React templates, both `^0.64.6`, nothing else |
| Unocss.AddPreset | plugins/unocss.js:32-34 | setting the preset on the one-entry object appends it |
| Unocss.ViteConfigFile | plugins/unocss.js:59 | `vite.config.ts` exactly for templates containing `-ts`, `vite.config.js` otherwise |
| Unocss.MainFile | plugins/unocss.js:88-90 | `src/main.tsx` for React, else `src/main.ts`, with the first `.ts` replaced by `.js` without `-ts`; its contract is `MainFileTable` |
| Unocss.MainFileTable | plugins/unocss.js:88-90 | the entry file is `src/main.tsx`, `src/main.jsx`, `src/main.ts` or `src/main.js` by framework and language |
| Unocss.MainFileUsesReplace | plugins/unocss.js:88-90 | the entry-file name is the source's `replace('.ts', '.js')` |
| Unocss.ReplaceExtensionTsx | plugins/unocss.js:90 | replacing the first `.ts` in `src/main.tsx` gives `src/main.jsx` |
| Unocss.ReplaceExtensionTs | plugins/unocss.js:90 | replacing the first `.ts` in `src/main.ts` gives `src/main.js` |
| Unocss.PatchedConfig | plugins/unocss.js:66-79 | the two anchor-guarded first-occurrence replaces, `from 'vite'` then `plugins: [`; its contract is `PatchedConfigNotIdempotent`, `PluginsEditKeepsViteAnchor` and `JsString.ReplaceFirstAt` |
| Unocss.PatchedConfigUsesReplace | plugins/unocss.js:66-79 | the two edits are the source's `replace` calls, since neither replacement text contains `$` |
| Unocss.PatchedConfigNotIdempotent | plugins/unocss.js:66-79 | each edit guards only on its anchor, which survives the edit; so a config with an anchor grows on each of two patches |
| Unocss.PluginsEditKeepsViteAnchor | plugins/unocss.js:66-79 | the plugins edit keeps an existing `from 'vite'` |
| Unocss.NoOverlap | plugins/unocss.js:66-79 | `plugins: [` and `from 'vite'` occurrences cannot overlap |
| Unocss.LaterSteps | plugins/unocss.js:58-101 | the Vite config step, then the entry-file step unless the first write threw; `LaterStepsFrame` and `SetupLaterSteps` state it |
| Unocss.SetupEffect | plugins/unocss.js:22-104 | what setup does: the merge, `uno.config.js`, then the later steps unless that write threw; its contract is `Setup`, `SetupManifest`, `SetupUnoConfig`, `SetupLaterSteps`, `SetupFailureMessage` and `SetupTwiceDoublesImport` |
| Unocss.Setup | plugins/unocss.js:22-104 | the manifest, files and outcome after the call are `SetupEffect` of the old ones |
| Unocss.LaterStepsFrame | plugins/unocss.js:58-101 | the Vite and entry steps touch only those two files |
| Unocss.SetupManifest | plugins/unocss.js:28-36 | devDependencies gains `unocss` and, for React, `@unocss/preset-react`, sorted, others kept; dependencies and scripts untouched |
| Unocss.SetupUnoConfig | plugins/unocss.js:39-56 | `uno.config.js` is always written with the fixed text; a failed write gives `Failed to create uno.config.js: <cause>` and no file change |
| Unocss.SetupLaterSteps | plugins/unocss.js:58-101 | a missing Vite config or entry file is skipped; a present one is patched or gets the import prepended; failures give `Failed to update <file>: <cause>` |
| Unocss.SetupFailureMessage | plugins/unocss.js:53-100 | whenever setup fails, its message starts with `Failed to ` |
| Unocss.SetupTwiceDoublesImport | plugins/unocss.js:93-96 | the entry import is prepended without a check, so two runs leave two import lines |
| PluginRegistry.Lookup | plugins/index.js:61 | the own entry `plugins[name]` finds: none exactly when no entry has the name; otherwise the descriptor registered under it (inherited members are handled by `Step`) |
| PluginRegistry.BuiltinLookup | plugins/index.js:11-15 | exactly `eslint`, `tailwind` and `unocss` are registered, each with a setup and its own name |
| PluginRegistry.BuiltinDescriptors | plugins/index.js:11-15 | each built-in name looks up its own entry |
| PluginRegistry.GetPluginChoices | plugins/index.js:29-35 | one choice per registered plugin |
| PluginRegistry.BuiltinChoices | plugins/index.js:29-35 | the three choices with titles, values and descriptions in registration order, each value finding its plugin |
| PluginRegistry.Priority | plugins/index.js:53-54 | `pluginOrder[name]`, or 999 when that is missing or 0, as the logical-or fallback gives; its contract is `PriorityTable` |
| PluginRegistry.SortByPriority | plugins/index.js:52-56 | the stable sort of the selection by priority, as insertion sort; its contract is `SortPermutes`, `SortSorted`, `SortStable`, `SortIsBuckets` and `SortExamples` |
| PluginRegistry.PriorityTable | plugins/index.js:20-54 | eslint has priority 1, tailwind and unocss 2, every other name 999 |
| PluginRegistry.SortPermutes | plugins/index.js:52-56 | the execution order holds the selected names with their multiplicities |
| PluginRegistry.SortSorted | plugins/index.js:52-56 | the execution order is ascending in priority |
| PluginRegistry.InsertSorted | plugins/index.js:52-56 | inserting a name by priority into an ascending order keeps it ascending |
| PluginRegistry.SortStable | plugins/index.js:52-56 | names of equal priority keep their selection order |
| PluginRegistry.SortIsBuckets | plugins/index.js:52-56 | the execution order is the priority-1 names, then priority 2, then 999, each in selection order |
| PluginRegistry.SortExamples | plugins/index.js:52-56 | eslint moves ahead of unocss; tailwind and unocss keep their order |
| PluginRegistry.EslintRunsFirst | plugins/index.js:52-56 | `["tailwind", "eslint"]` runs as eslint, then tailwind |
| PluginRegistry.RunPlugin | plugins/index.js:82 | `plugin.setup(root, template, pkg)` as the dispatched plugin's `SetupEffect`; `RunSetup` and `RunPluginFailureMessage` state it |
| PluginRegistry.Step | plugins/index.js:60-91 | one loop iteration: own entry, else an inherited `Object.prototype` member (no setup), else not found; then the routine, its outcome recorded under `success` or `failed`; its contract is `StepRecords` |
| PluginRegistry.ApplyAll | plugins/index.js:60-92 | the loop as a fold of `Step` over the names; its contract is `ApplyAllInterleaves`, `ApplyAllRecords`, `NeverMissesSetupWith` and `ApplyPlugins` |
| PluginRegistry.ApplyPluginsEffect | plugins/index.js:45-104 | `applyPlugins`: the fold over the sorted selection from empty results; its contract is `ApplyPlugins`, `ResultsPartitionSelection` and `BuiltinNeverMissesSetup` |
| PluginRegistry.RunSetup | plugins/index.js:82 | the call's effect is the dispatched plugin's `SetupEffect` |
| PluginRegistry.ApplyPlugins | plugins/index.js:45-104 | the final manifest, files and results equal the fold over the sorted names, starting from empty results |
| PluginRegistry.StepRecords | plugins/index.js:60-91 | one iteration appends exactly one result for the name: `Plugin not found` for a name with neither an own entry nor an inherited member, `Plugin missing setup method` for an inherited member or an entry without setup, otherwise the routine's outcome |
| PluginRegistry.InterleavingCounts | plugins/index.js:46-49 | an interleaving has as many entries, and the same names, as the sequence it merges to |
| PluginRegistry.ApplyAllInterleaves | plugins/index.js:60-92 | every processed name lands in exactly one list, each list kept in processing order |
| PluginRegistry.ResultsPartitionSelection | plugins/index.js:45-104 | success and failed names interleave to the execution order, so together they hold exactly the selected names |
| PluginRegistry.ApplyAllRecords | plugins/index.js:61-83 | a name with neither an own entry nor an inherited member gets `Plugin not found`; an inherited member name or an entry without setup gets `Plugin missing setup method`; only names with a setup can succeed |
| PluginRegistry.NeverMissesSetupWith | plugins/index.js:61-79 | with the built-in registry and routines that never fail with that exact message, a `Plugin missing setup method` failure is only ever recorded for a selected name inherited from `Object.prototype` |
| PluginRegistry.RunPluginFailureMessage | plugins/index.js:81-88 | every failure a built-in setup routine reports starts with `Failed to ` |
| PluginRegistry.BuiltinNeverMissesSetup | plugins/index.js:61-79 | with the built-in registry and routines, a `Plugin missing setup method` failure is recorded only for a selected name inherited from `Object.prototype`, so never for a selection of other names |
| PluginRegistry.InheritedNameMissesSetup | plugins/index.js:61-79 | selecting `constructor` records it as missing its setup method, through the inherited `Object` function, and changes nothing else |
| PluginRegistry.IsolatedRunWith | plugins/index.js:60-92 | for any setup routines where eslint fails and tailwind succeeds, both leaving the files alone, the loop over eslint then tailwind records eslint as failed with its message and tailwind as a success |
| PluginRegistry.IsolatedRun | plugins/index.js:45-104 | for `["tailwind", "eslint"]` with a failing eslint write, eslint runs first and fails, then tailwind runs and succeeds |
| PluginRegistry.ManifestAfterBoth | plugins/index.js:60-92 | tailwind's merge keeps the eslint devDependency added earlier |
| PluginRegistry.EslintFailureIsolated | plugins/index.js:81-91 | a failed eslint does not stop tailwind; the failure message and both merges are kept; the files are unchanged |
| Cli.FormatTargetDir | index.js:36-38 | an absent argument stays absent and a present one stays present |
| Cli.Trim | index.js:37 | `trim()`: leading and trailing white space dropped; its contract is `TrimStrips` and `TrimKeeps` |
| Cli.FormatTargetDirStripsSlashes | index.js:36-38 | the result never ends in `/`, it is a prefix of the trimmed argument, and everything the strip removed is `/` |
| Cli.TrimStrips | index.js:37 | the trimmed text neither starts nor ends with white space |
| Cli.TrimKeeps | index.js:37 | a text that neither starts nor ends with white space is its own trim |
| Cli.IsValidPackageName | index.js:40-42 | the package-name regex test, scanning to the first `/` after a leading `@`; its contract is `IsValidPackageNameMatchesPattern` and `IsValidPackageNameRejects` |
| Cli.IsValidPackageNameMatchesPattern | index.js:40-42 | the test accepts exactly `^(?:@scope/)?name$` with the regex's character classes |
| Cli.IsValidPackageNameRejects | index.js:40-42 | an accepted name is non-empty and has no upper-case letter |
| Cli.ToValidPackageName | index.js:44-51 | trim, lower-case, white-space runs to `-`, drop one leading `.` or `_`, other runs outside `[a-z0-9-~]` to `-`; its contract is `ToValidPackageNameChars`, `ToValidPackageNameIsValid` and `ToValidPackageNameIdempotent` |
| Cli.CollapseRuns | index.js:48-50 | a global `replace(/[class]+/g, sep)`: each maximal run of class characters becomes one `sep`; its contract is `CollapseRunsChars` and `CollapseRunsNone` |
| Cli.ToValidPackageNameChars | index.js:44-51 | the repaired name consists only of `[a-z0-9-~]` |
| Cli.ToValidPackageNameIsValid | index.js:44-51 | a non-empty repaired name passes `isValidPackageName` |
| Cli.RepairKeepsNameStartText | index.js:44-51 | a text of `[a-z0-9-~]` characters is its own repair |
| Cli.ToValidPackageNameIdempotent | index.js:44-51 | repairing a repaired name changes nothing |
| Cli.CollapseRunsChars | index.js:48-50 | after collapsing runs, every character is the replacement or outside the class |
| Cli.CollapseRunsNone | index.js:48-50 | a text with no character of the class is unchanged |
| Cli.IsEmpty | index.js:53-56 | the listing is empty, or is exactly `[".git"]`; its contract is `IsEmptyMeansOnlyGit` |
| Cli.IsEmptyMeansOnlyGit | index.js:53-56 | for a listing without repeats: empty exactly when every entry is `.git` |
| Cli.Templates | index.js:33 | the variant names of every framework, flattened in order; its contract is `TemplatesList` and `TemplatesAgreeWithInfo` |
| Cli.TemplatesList | index.js:12-33 | the templates are `vue-ts`, `vue`, `react-ts`, `react`, in that order |
| Cli.TemplatesAgreeWithInfo | index.js:12-31 | each variant's facets from `getTemplateInfo` match its framework, and TypeScript matches its display label |

## Left out

- Prompts, colours, console output and the rest of the `init` flow in `index.js`
  are not modelled, and neither is the template copy, `emptyDir` or the package
  manager detection. They are I/O and user interaction.
- Reads do not fail, and `writeFile` creating parent directories is not modelled.
  Only writes fail, and only through the `faults` oracle.
- `path.join` is `root + "/" + rel`, without normalising `.`, `..` or repeated
  slashes.
- `Utils.Stringify` renders only the three modelled fields, without escaping, and in
  a fixed field order (`dependencies`, `devDependencies`, `scripts`).
  `JSON.stringify` follows the object's own key order, and `Manifest` does not
  record it. The other fields of `package.json` are not modelled. No plugin writes
  an object, so this path is unused.
- `JsString.ReplaceFirst` is the literal splice. `JsString.Replace` is
  `String.prototype.replace` with a string pattern, `$` patterns included, and
  `Utils.Injected` uses it, because the replacement there is built from the
  caller's arguments. The UnoCSS edits use the literal splice; their replacement
  texts contain no `$`, and `Unocss.PatchedConfigUsesReplace` and
  `Unocss.MainFileUsesReplace` prove the two agree there. The tailwind regex's groups
  are modelled directly by `Tailwind.AddPluginCall`.
- `JsObject.SortByKey`: keys compare by code point. JavaScript compares UTF-16 code
  units, and that differs only outside the Basic Multilingual Plane.
- `JsObject` follows the insertion order of keys. It does not model JavaScript
  listing integer-like keys first, or prototype keys such as `__proto__`. Inherited
  keys matter only for the `plugins` lookup, and `PluginRegistry.Step` models them.
- `Cli.Trim`, `Cli.ToLower`: white space (for `trim`, `\s` and `\s+`) is ASCII white
  space, and lower-casing is ASCII. Unicode spaces and case mappings are not
  modelled.
- `Tailwind.SkipSpaces`: the regex's `\s` is ASCII white space only.
- `Utils.FileSystem.InjectContent` is modelled but no plugin calls it, as in the
  source.
- `PluginRegistry.ApplyPlugins` takes the registry as a parameter. `Plugins` is the
  source's `plugins` object. With it, the missing-setup branch is reached only for
  names inherited from `Object.prototype` (`ObjectMembers`). Dafny sequences are
  values, so it is evident that `selectedPlugins` is not modified.
- `PluginRegistry.Priority`: for a name of an `Object.prototype` member, such as
  `constructor`, `pluginOrder[name] || 999` is an inherited function or object, not
  a number. The comparator then returns NaN, which `sort` reads as "equal", so the
  comparator is inconsistent and the order is implementation-defined. The model
  gives such names priority 999. That is one of the orders the language allows, not
  the one a particular engine picks.
- `PluginRegistry.PriorityTable`: "every other name 999" holds for `Priority`. In
  the source it fails for names of `Object.prototype` members; see the line above.
- `PluginRegistry.SortByPriority`, `PluginRegistry.SortIsBuckets`: when the selection
  holds an `Object.prototype` member name, the source's order is
  implementation-defined (see `PluginRegistry.Priority`). The model's order is the
  stable sort with priority 999 for such names.
- The methods `Tailwind.Setup` and `Unocss.Setup` call the pure text edits
  (`PatchedConfig`, `MainFile`). They do not repeat the string surgery inline.
- `PluginRegistry.SortByPriority` is a stable insertion sort. `Array.prototype.sort`
  is required to be stable, so only the resulting order is modelled, not the
  comparator calls.
