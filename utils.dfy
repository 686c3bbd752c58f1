/**
 * The helpers of plugins/utils.js: the facets of a template id, the two
 * manifest merges, and the file write and injection over a modelled file
 * system (a map from path to contents plus an oracle of failing writes).
 */
module Utils {
  import opened Wrappers
  import opened JsString
  import opened JsObject

  // ---------------------------------------------------------------------------
  // getTemplateInfo

  /** The facets of a template id such as `react-ts` or `vue`. */
  datatype TemplateInfo = TemplateInfo(
    isTypeScript: bool,
    isJavaScript: bool,
    isReact: bool,
    isVue: bool,
    framework: string,
    language: string,
    displayName: string)

  /** The display label of each framework and language name. */
  const Labels: map<string, string> :=
    map["react" := "React", "vue" := "Vue", "vanilla" := "Vanilla",
        "typescript" := "TypeScript", "javascript" := "JavaScript"]

  /**
   * Facets by substring tests: `-ts` decides the language; `react` wins over
   * `vue` for the framework, and a template with neither is vanilla.
   */
  function GetTemplateInfo(template: string): (info: TemplateInfo)
    ensures info.isTypeScript <==> Includes(template, "-ts")
    ensures info.isJavaScript <==> !info.isTypeScript
    ensures info.isReact <==> Includes(template, "react")
    ensures info.isVue <==> Includes(template, "vue")
    ensures info.language == (if info.isTypeScript then "typescript" else "javascript")
    ensures info.framework == "react" <==> info.isReact
    ensures info.framework == "vue" <==> info.isVue && !info.isReact
    ensures info.framework == "vanilla" <==> !info.isVue && !info.isReact
    ensures info.framework in Labels && info.language in Labels
    ensures info.displayName == Labels[info.framework] + " + " + Labels[info.language]
  {
    var isTypeScript := Includes(template, "-ts");
    var isReact := Includes(template, "react");
    var isVue := Includes(template, "vue");
    TemplateInfo(
      isTypeScript,
      !isTypeScript,
      isReact,
      isVue,
      if isReact then "react" else if isVue then "vue" else "vanilla",
      if isTypeScript then "typescript" else "javascript",
      (if isReact then "React" else if isVue then "Vue" else "Vanilla") + " + " +
      (if isTypeScript then "TypeScript" else "JavaScript"))
  }

  // ---------------------------------------------------------------------------
  // The manifest and mergeDependencies / mergeScripts

  /** Which dependency sub-object of package.json a merge targets. */
  datatype DepKind = Dependencies | DevDependencies

  /** The fields of package.json the plugins touch; `None` is an absent field. */
  datatype Manifest = Manifest(
    dependencies: Option<Entries>,
    devDependencies: Option<Entries>,
    scripts: Option<Entries>)
  {
    function Deps(kind: DepKind): Option<Entries> {
      if kind == Dependencies then dependencies else devDependencies
    }

    function WithDeps(kind: DepKind, e: Entries): Manifest {
      if kind == Dependencies then this.(dependencies := Some(e))
      else this.(devDependencies := Some(e))
    }
  }

  function Other(kind: DepKind): DepKind {
    if kind == Dependencies then DevDependencies else Dependencies
  }

  /** Every present sub-object has unique keys, as any parsed JSON object does. */
  predicate WellFormed(m: Manifest) {
    && (m.dependencies.Some? ==> UniqueKeys(m.dependencies.value))
    && (m.devDependencies.Some? ==> UniqueKeys(m.devDependencies.value))
    && (m.scripts.Some? ==> UniqueKeys(m.scripts.value))
  }

  /**
   * `mergeDependencies(pkg, deps, kind)`: create the sub-object if absent,
   * `Object.assign` the new entries into it, then rebuild it in sorted key order.
   */
  function MergedDependencies(m: Manifest, deps: Entries, kind: DepKind): Manifest {
    m.WithDeps(kind, SortByKey(Assign(m.Deps(kind).GetOr([]), deps)))
  }

  /** `mergeScripts(pkg, scripts)`: create `scripts` if absent, then `Object.assign` only. */
  function MergedScripts(m: Manifest, scripts: Entries): Manifest {
    m.(scripts := Some(Assign(m.scripts.GetOr([]), scripts)))
  }

  /**
   * After `mergeDependencies` the sub-object exists, holds the old keys and the
   * new ones with the new values winning, is in strictly ascending key order,
   * and no other field of the manifest changes.
   */
  lemma MergeDependenciesContents(m: Manifest, deps: Entries, kind: DepKind)
    requires WellFormed(m) && UniqueKeys(deps)
    ensures MergedDependencies(m, deps, kind).Deps(kind).Some?
    ensures var e := MergedDependencies(m, deps, kind).Deps(kind).value;
      && Ascending(e)
      && (forall k :: k in Keys(e) <==> k in Keys(m.Deps(kind).GetOr([])) || k in Keys(deps))
      && (forall k :: Get(e, k) == if k in Keys(deps) then Get(deps, k) else Get(m.Deps(kind).GetOr([]), k))
    ensures MergedDependencies(m, deps, kind).Deps(Other(kind)) == m.Deps(Other(kind))
    ensures MergedDependencies(m, deps, kind).scripts == m.scripts
    ensures WellFormed(MergedDependencies(m, deps, kind))
  {
    var cur := m.Deps(kind).GetOr([]);
    var merged := Assign(cur, deps);
    AssignUnique(cur, deps);
    AssignKeys(cur, deps);
    forall k
      ensures Get(SortByKey(merged), k) == if k in Keys(deps) then Get(deps, k) else Get(cur, k)
      ensures k in Keys(SortByKey(merged)) <==> k in Keys(cur) || k in Keys(deps)
    {
      AssignGet(cur, deps, k);
      SortByKeyGet(merged, k);
      NewKeysMember(Keys(cur), Keys(deps), k);
    }
    SortAscending(merged);
    AscendingUnique(SortByKey(merged));
  }

  /**
   * After `mergeScripts` the existing keys keep their slots (with new values
   * where the argument has them) and the new keys follow in argument order:
   * nothing is re-sorted, and no other field changes.
   */
  lemma MergeScriptsContents(m: Manifest, scripts: Entries)
    requires UniqueKeys(scripts)
    ensures MergedScripts(m, scripts).scripts.Some?
    ensures var e := MergedScripts(m, scripts).scripts.value;
      var before := m.scripts.GetOr([]);
      && Keys(e) == Keys(before) + NewKeys(Keys(before), Keys(scripts))
      && (forall k :: Get(e, k) == if k in Keys(scripts) then Get(scripts, k) else Get(before, k))
    ensures MergedScripts(m, scripts).dependencies == m.dependencies
    ensures MergedScripts(m, scripts).devDependencies == m.devDependencies
  {
    var before := m.scripts.GetOr([]);
    AssignKeys(before, scripts);
    forall k
      ensures Get(Assign(before, scripts), k) == if k in Keys(scripts) then Get(scripts, k) else Get(before, k)
    {
      AssignGet(before, scripts, k);
    }
  }

  lemma MergeScriptsWellFormed(m: Manifest, scripts: Entries)
    requires WellFormed(m)
    ensures WellFormed(MergedScripts(m, scripts))
  {
    AssignUnique(m.scripts.GetOr([]), scripts);
  }

  /** Merging `{b: "1"}` and then `{a: "2"}` into absent scripts keeps the order `b`, `a`. */
  lemma MergeScriptsKeepsInsertionOrder()
    ensures var m := MergedScripts(MergedScripts(Manifest(None, None, None), [("b", "1")]), [("a", "2")]);
      m.scripts == Some([("b", "1"), ("a", "2")])
  {
    var b: Entries := [("b", "1")];
    var a: Entries := [("a", "2")];
    assert b[1..] == [] && a[1..] == [];
    var one := Put([], "b", "1");
    assert one == b;
    assert Assign([], b) == Assign(one, b[1..]) == b;
    assert IndexOfKey(b, "a") == -1;
    assert Assign(b, a) == Assign(Put(b, "a", "2"), a[1..]) == b + a;
    var m1 := MergedScripts(Manifest(None, None, None), b);
    assert m1.scripts == Some(b);
    assert MergedScripts(m1, a).scripts == Some(b + a);
    assert b + a == [("b", "1"), ("a", "2")];
  }

  /** Every entry of `deps` is present, with its value, in `e`. */
  lemma AllPresent(e: Entries, deps: Entries)
    requires UniqueKeys(deps)
    requires forall k :: Get(e, k) == if k in Keys(deps) then Get(deps, k) else Get(e, k)
    ensures forall i :: 0 <= i < |deps| ==> Get(e, deps[i].0) == Some(deps[i].1)
  {
    forall i | 0 <= i < |deps|
      ensures Get(e, deps[i].0) == Some(deps[i].1)
    {
      KeyIn(deps, i);
      GetIn(deps, deps[i].0, deps[i].1);
    }
  }

  /** Merging the same dependencies twice is merging them once. */
  lemma MergeDependenciesIdempotent(m: Manifest, deps: Entries, kind: DepKind)
    requires WellFormed(m) && UniqueKeys(deps)
    ensures MergedDependencies(MergedDependencies(m, deps, kind), deps, kind) == MergedDependencies(m, deps, kind)
  {
    var r := MergedDependencies(m, deps, kind);
    var e := r.Deps(kind).value;
    MergeDependenciesContents(m, deps, kind);
    AllPresent(e, deps);
    AscendingUnique(e);
    AssignPresent(e, deps);
    SortOfAscending(e);
  }

  /** Merging the same scripts twice is merging them once. */
  lemma MergeScriptsIdempotent(m: Manifest, scripts: Entries)
    requires WellFormed(m) && UniqueKeys(scripts)
    ensures MergedScripts(MergedScripts(m, scripts), scripts) == MergedScripts(m, scripts)
  {
    var e := MergedScripts(m, scripts).scripts.value;
    MergeScriptsContents(m, scripts);
    MergeScriptsWellFormed(m, scripts);
    AllPresent(e, scripts);
    AssignPresent(e, scripts);
  }

  /** The manifest object that the merges update in place. */
  class Package {
    var dependencies: Option<Entries>
    var devDependencies: Option<Entries>
    var scripts: Option<Entries>

    constructor (m: Manifest)
      ensures Value() == m
    {
      dependencies := m.dependencies;
      devDependencies := m.devDependencies;
      scripts := m.scripts;
    }

    function Value(): Manifest
      reads this
    {
      Manifest(dependencies, devDependencies, scripts)
    }

    method MergeDependencies(deps: Entries, kind: DepKind := DevDependencies)
      modifies this
      ensures Value() == MergedDependencies(old(Value()), deps, kind)
    {
      if kind == Dependencies {
        if dependencies.None? {
          dependencies := Some([]);
        }
        dependencies := Some(Assign(dependencies.value, deps));
        dependencies := Some(SortByKey(dependencies.value));
      } else {
        if devDependencies.None? {
          devDependencies := Some([]);
        }
        devDependencies := Some(Assign(devDependencies.value, deps));
        devDependencies := Some(SortByKey(devDependencies.value));
      }
    }

    method MergeScripts(entries: Entries)
      modifies this
      ensures Value() == MergedScripts(old(Value()), entries)
    {
      if scripts.None? {
        scripts := Some([]);
      }
      scripts := Some(Assign(scripts.value, entries));
    }
  }

  // ---------------------------------------------------------------------------
  // writeFile / injectContent

  /** The file tree: path to contents. */
  type Files = map<string, string>

  /** The I/O oracle: a write to a listed path fails with the listed error message. */
  type Faults = map<string, string>

  /** `{ success: true }` or `{ success: false, error }`; also a setup's normal return or throw. */
  datatype Outcome = Success | Failure(error: string)

  /** What a plugin's setup throws when one of its file steps fails: `Failed to <action>: <error>`. */
  function StepFailed(action: string, error: string): (r: Outcome)
    ensures r.Failure? && "Failed to " <= r.error
  {
    Failure("Failed to " + action + ": " + error)
  }

  /** What `writeFile` is given: a string, or an object to serialise as JSON. */
  datatype Content = Text(text: string) | Json(value: Manifest)

  function Quote(s: string): string {
    "\"" + s + "\""
  }

  function Members(e: Entries, indent: string): string {
    if e == [] then ""
    else
      indent + Quote(e[0].0) + ": " + Quote(e[0].1) +
      (if |e| == 1 then "" else ",\n" + Members(e[1..], indent))
  }

  function ObjectText(e: Entries, indent: string): string {
    if e == [] then "{}" else "{\n" + Members(e, indent + "  ") + "\n" + indent + "}"
  }

  function Fields(fs: seq<(string, Entries)>): string {
    if fs == [] then ""
    else
      "  " + Quote(fs[0].0) + ": " + ObjectText(fs[0].1, "  ") +
      (if |fs| == 1 then "" else ",\n" + Fields(fs[1..]))
  }

  /**
   * Two-space indented JSON of the modelled fields, always in the fixed order
   * `dependencies`, `devDependencies`, `scripts`. `JSON.stringify` follows the
   * object's own key order, which `Manifest` does not record.
   */
  function Stringify(m: Manifest): string {
    var fs :=
      (if m.dependencies.Some? then [("dependencies", m.dependencies.value)] else []) +
      (if m.devDependencies.Some? then [("devDependencies", m.devDependencies.value)] else []) +
      (if m.scripts.Some? then [("scripts", m.scripts.value)] else []);
    if fs == [] then "{}" else "{\n" + Fields(fs) + "\n}"
  }

  /** The text `writeFile` puts in the file: a string verbatim, an object as JSON plus a newline. */
  function Render(c: Content): string {
    match c
    case Text(t) => t
    case Json(m) => Stringify(m) + "\n"
  }

  /** `path.join(root, rel)`. */
  function Join(root: string, rel: string): string {
    root + "/" + rel
  }

  /** Different names under one root are different paths. */
  lemma JoinInjective(root: string, a: string, b: string)
    requires Join(root, a) == Join(root, b)
    ensures a == b
  {
    assert a == Join(root, a)[|root| + 1..];
    assert b == Join(root, b)[|root| + 1..];
  }

  /**
   * Writing `text` at `path`: the file is created or overwritten, or, when the
   * write fails, nothing changes and the error message is returned.
   */
  function Write(files: Files, faults: Faults, path: string, text: string): (Files, Outcome) {
    if path in faults then (files, Failure(faults[path]))
    else (files[path := text], Success)
  }

  /**
   * `injectContent(path, search, insert, position)`: a missing file and a missing
   * search string are reported and leave the file alone; otherwise the first
   * occurrence is replaced, through `replace`, by `insert + search` (`"before"`)
   * or `search + insert` (any other position) and the result is written back.
   */
  function Inject(files: Files, faults: Faults, path: string, search: string, insert: string, position: string): (r: (Files, Outcome))
    ensures path !in files ==> r == (files, Failure("File not found"))
    ensures path in files && !Includes(files[path], search) ==>
      r == (files, Failure("Search string not found: " + search))
    ensures path in files && Includes(files[path], search) ==>
      r == Write(files, faults, path, Injected(files[path], search, insert, position))
  {
    if path !in files then
      (files, Failure("File not found"))
    else
      var content := files[path];
      if !Includes(content, search) then
        (files, Failure("Search string not found: " + search))
      else
        Write(files, faults, path, Injected(content, search, insert, position))
  }

  /** The text `injectContent` writes back: `content.replace(search, insert + search)` for `"before"`, else `content.replace(search, search + insert)`. */
  function Injected(content: string, search: string, insert: string, position: string): string {
    Replace(content, search, if position == "before" then insert + search else search + insert)
  }

  /**
   * With the search string present, the written text has the first
   * occurrence of the search string replaced by the expanded replacement.
   */
  lemma InjectSplices(content: string, search: string, insert: string, position: string)
    requires Includes(content, search)
    ensures var i := IndexOf(content, search, 0);
      var replacement := if position == "before" then insert + search else search + insert;
      && 0 <= i && IsAt(content, search, i) && (forall j :: 0 <= j < i ==> !IsAt(content, search, j))
      && Injected(content, search, insert, position) ==
           content[..i] + Substitute(replacement, search, content[..i], content[i + |search|..]) + content[i + |search|..]
  {
    ReplaceAt(content, search, if position == "before" then insert + search else search + insert);
  }

  /**
   * When neither the insert nor the search string contains `$`, the written
   * text has the insert placed just before (`"before"`) or just after the
   * first occurrence of the search string.
   */
  lemma InjectInsertsLiterally(content: string, search: string, insert: string, position: string)
    requires Includes(content, search)
    requires '$' !in insert && '$' !in search
    ensures var i := IndexOf(content, search, 0);
      && 0 <= i && IsAt(content, search, i)
      && Injected(content, search, insert, position) ==
           content[..i] + (if position == "before" then insert + search else search + insert) + content[i + |search|..]
  {
    var replacement := if position == "before" then insert + search else search + insert;
    assert '$' !in replacement;
    InjectSplices(content, search, insert, position);
  }

  /** The project directory on disk. */
  class FileSystem {
    var files: Files
    const faults: Faults

    constructor (files: Files, faults: Faults)
      ensures this.files == files && this.faults == faults
    {
      this.files := files;
      this.faults := faults;
    }

    /** `fs.existsSync(path)`. */
    predicate Exists(path: string)
      reads this
    {
      path in files
    }

    /** `fs.readFileSync(path, 'utf-8')`. */
    function Read(path: string): string
      reads this
      requires Exists(path)
    {
      files[path]
    }

    /** `writeFile(path, content)`: never throws; a failure comes back as a result. */
    method WriteFile(path: string, content: Content) returns (r: Outcome)
      modifies this
      ensures (files, r) == Write(old(files), faults, path, Render(content))
      ensures r.Success? ==> files == old(files)[path := Render(content)]
      ensures r.Failure? ==> files == old(files) && path in faults && r.error == faults[path]
    {
      var fileContent := Render(content);
      if path in faults {
        r := Failure(faults[path]);
      } else {
        files := files[path := fileContent];
        r := Success;
      }
    }

    /** `injectContent(path, search, insert, position)`. */
    method InjectContent(path: string, search: string, insert: string, position: string := "before")
      returns (r: Outcome)
      modifies this
      ensures (files, r) == Inject(old(files), faults, path, search, insert, position)
    {
      if !Exists(path) {
        return Failure("File not found");
      }
      var content := Read(path);
      if !Includes(content, search) {
        return Failure("Search string not found: " + search);
      }
      if position == "before" {
        content := Replace(content, search, insert + search);
      } else {
        content := Replace(content, search, search + insert);
      }
      r := WriteFile(path, Text(content));
    }
  }

  /** What a plugin's setup leaves behind: the manifest, the files and how it returned. */
  datatype Effect = Effect(pkg: Manifest, files: Files, outcome: Outcome)
}
