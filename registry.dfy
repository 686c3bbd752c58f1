/**
 * plugins/index.js: the plugin registry, the priority table, the choice list
 * shown to the user and `applyPlugins`, which runs the selected plugins in
 * priority order and records each one as a success or a failure.
 */
module PluginRegistry {
  import opened Wrappers
  import opened JsObject
  import opened Utils
  import Eslint
  import Tailwind
  import Unocss

  /** The setup routines that exist. */
  datatype Plugin = EslintPlugin | TailwindPlugin | UnocssPlugin

  /** A registry entry: its metadata and, when present, its setup routine. */
  datatype Descriptor = Descriptor(name: string, title: string, description: string, setup: Option<Plugin>)

  /** The registry as an ordered object from plugin names to descriptors. */
  type Registry = seq<(string, Descriptor)>

  /** The `plugins` object, in registration order. */
  const Plugins: Registry := [
    ("eslint", Descriptor(Eslint.Name, Eslint.Title, Eslint.Description, Some(EslintPlugin))),
    ("tailwind", Descriptor(Tailwind.Name, Tailwind.Title, Tailwind.Description, Some(TailwindPlugin))),
    ("unocss", Descriptor(Unocss.Name, Unocss.Title, Unocss.Description, Some(UnocssPlugin)))
  ]

  /**
   * The properties every object literal inherits from `Object.prototype`
   * (ECMA-262, section 20.1.3, and `__proto__` and the accessor helpers of
   * Annex B.2.2). A name the registry has no own entry for but that is one of
   * these still finds a value, a function or the prototype itself, and that
   * value has no `setup`.
   */
  const ObjectMembers: set<string> := {
    "constructor", "hasOwnProperty", "isPrototypeOf", "propertyIsEnumerable", "toLocaleString",
    "toString", "valueOf", "__proto__", "__defineGetter__", "__defineSetter__", "__lookupGetter__",
    "__lookupSetter__"}

  /** The own entry `plugins[name]` finds: the descriptor of the first entry with that key. */
  function Lookup(reg: Registry, name: string): (r: Option<Descriptor>)
    ensures r.None? <==> forall i :: 0 <= i < |reg| ==> reg[i].0 != name
    ensures r.Some? ==> exists i :: 0 <= i < |reg| && reg[i] == (name, r.value)
  {
    if reg == [] then None
    else if reg[0].0 == name then Some(reg[0].1)
    else
      var r := Lookup(reg[1..], name);
      assert forall i :: 1 <= i < |reg| ==> reg[i] == reg[1..][i - 1];
      r
  }

  /** The three built-in plugins are registered, each with a setup routine, and nothing else is. */
  lemma BuiltinLookup(name: string)
    ensures Lookup(Plugins, name).Some? <==> name == "eslint" || name == "tailwind" || name == "unocss"
    ensures Lookup(Plugins, name).Some? ==> Lookup(Plugins, name).value.setup.Some? && Lookup(Plugins, name).value.name == name
  {
    assert Plugins[1..][1..] == [Plugins[2]];
    assert Plugins[1..][1..][1..] == [];
  }

  /** An entry of the prompt's choice list. */
  datatype Choice = Choice(title: string, value: string, description: string)

  /** `getPluginChoices`: one choice per registry entry, in registration order. */
  function GetPluginChoices(reg: Registry): (cs: seq<Choice>)
    ensures |cs| == |reg|
  {
    seq(|reg|, i requires 0 <= i < |reg| => Choice(reg[i].1.title, reg[i].1.name, reg[i].1.description))
  }

  /** The built-in choices, in the order eslint, tailwind, unocss; each value looks up its own descriptor. */
  lemma BuiltinChoices()
    ensures GetPluginChoices(Plugins) == [
      Choice("ESLint (Antfu)", "eslint", "Code quality and linting with @antfu/eslint-config"),
      Choice("Tailwind CSS", "tailwind", "Utility-first CSS framework"),
      Choice("UnoCSS", "unocss", "Instant on-demand atomic CSS engine")]
    ensures forall c :: c in GetPluginChoices(Plugins) ==>
      Lookup(Plugins, c.value).Some? && Lookup(Plugins, c.value).value.title == c.title
  {
    var cs := GetPluginChoices(Plugins);
    forall c | c in cs
      ensures Lookup(Plugins, c.value).Some? && Lookup(Plugins, c.value).value.title == c.title
    {
      var i :| 0 <= i < |cs| && cs[i] == c;
      assert i == 0 || i == 1 || i == 2;
    }
  }

  // ---------------------------------------------------------------------------
  // Execution order
  // ---------------------------------------------------------------------------

  /** The `pluginOrder` table: smaller runs first. */
  const PluginOrder: map<string, int> := map["eslint" := 1, "tailwind" := 2, "unocss" := 2]

  /** `pluginOrder[name] || 999`: a missing (or zero) entry counts as 999. */
  function Priority(name: string): int {
    if name in PluginOrder && PluginOrder[name] != 0 then PluginOrder[name] else 999
  }

  /** eslint first, then the CSS frameworks on one level, then every other name. */
  lemma PriorityTable(name: string)
    ensures name == "eslint" ==> Priority(name) == 1
    ensures name == "tailwind" || name == "unocss" ==> Priority(name) == 2
    ensures name != "eslint" && name != "tailwind" && name != "unocss" ==> Priority(name) == 999
    ensures Priority(name) == 1 || Priority(name) == 2 || Priority(name) == 999
  {
  }

  /** Puts `x` before the first name whose priority is not below its own. */
  function InsertByPriority(x: string, s: seq<string>): seq<string> {
    if s == [] || Priority(x) <= Priority(s[0]) then [x] + s
    else [s[0]] + InsertByPriority(x, s[1..])
  }

  /** `[...selectedPlugins].sort((a, b) => order(a) - order(b))`: a stable sort by priority. */
  function SortByPriority(s: seq<string>): seq<string> {
    if s == [] then [] else InsertByPriority(s[0], SortByPriority(s[1..]))
  }

  predicate Sorted(s: seq<string>) {
    forall i, j :: 0 <= i < j < |s| ==> Priority(s[i]) <= Priority(s[j])
  }

  /** The names of `s` with priority `p`, in their order in `s`. */
  function WithPriority(s: seq<string>, p: int): seq<string> {
    if s == [] then [] else (if Priority(s[0]) == p then [s[0]] else []) + WithPriority(s[1..], p)
  }

  lemma {:induction false} InsertPermutes(x: string, s: seq<string>)
    ensures multiset(InsertByPriority(x, s)) == multiset([x] + s)
    decreases |s|
  {
    if s != [] && Priority(x) > Priority(s[0]) {
      InsertPermutes(x, s[1..]);
      assert s == [s[0]] + s[1..];
    }
  }

  /** The sort only reorders: every name keeps its number of occurrences. */
  lemma {:induction false} SortPermutes(s: seq<string>)
    ensures multiset(SortByPriority(s)) == multiset(s)
    decreases |s|
  {
    if s != [] {
      SortPermutes(s[1..]);
      InsertPermutes(s[0], SortByPriority(s[1..]));
      assert s == [s[0]] + s[1..];
    }
  }

  /** Every name of `s` has priority at least `b`. */
  predicate AllAtLeast(s: seq<string>, b: int) {
    forall k :: 0 <= k < |s| ==> Priority(s[k]) >= b
  }

  lemma {:induction false} InsertAtLeast(x: string, s: seq<string>, b: int)
    requires AllAtLeast(s, b) && Priority(x) >= b
    ensures AllAtLeast(InsertByPriority(x, s), b)
    decreases |s|
  {
    if s != [] && Priority(x) > Priority(s[0]) {
      InsertAtLeast(x, s[1..], b);
    }
  }

  /** A name in front of a sorted sequence whose names are all at least its priority keeps it sorted. */
  lemma ConsSorted(a: string, t: seq<string>)
    requires Sorted(t) && AllAtLeast(t, Priority(a))
    ensures Sorted([a] + t)
  {
    var r := [a] + t;
    forall i, j | 0 <= i < j < |r|
      ensures Priority(r[i]) <= Priority(r[j])
    {
      assert r[j] == t[j - 1];
      if i > 0 {
        assert r[i] == t[i - 1];
      }
    }
  }

  lemma SortedTail(s: seq<string>)
    requires Sorted(s) && s != []
    ensures Sorted(s[1..]) && AllAtLeast(s[1..], Priority(s[0]))
  {
    var t := s[1..];
    forall i, j | 0 <= i < j < |t|
      ensures Priority(t[i]) <= Priority(t[j])
    {
      assert t[i] == s[i + 1] && t[j] == s[j + 1];
    }
    forall k | 0 <= k < |t|
      ensures Priority(t[k]) >= Priority(s[0])
    {
      assert t[k] == s[k + 1];
    }
  }

  lemma {:induction false} InsertSorted(x: string, s: seq<string>)
    requires Sorted(s)
    ensures Sorted(InsertByPriority(x, s))
    decreases |s|
  {
    if s == [] {
      ConsSorted(x, s);
    } else {
      SortedTail(s);
      if Priority(x) <= Priority(s[0]) {
        ConsSorted(x, s);
      } else {
        InsertSorted(x, s[1..]);
        InsertAtLeast(x, s[1..], Priority(s[0]));
        ConsSorted(s[0], InsertByPriority(x, s[1..]));
      }
    }
  }

  /** The execution order is ascending in priority. */
  lemma {:induction false} SortSorted(s: seq<string>)
    ensures Sorted(SortByPriority(s))
    decreases |s|
  {
    if s != [] {
      SortSorted(s[1..]);
      InsertSorted(s[0], SortByPriority(s[1..]));
    }
  }

  lemma WithPriorityCons(x: string, s: seq<string>, p: int)
    ensures WithPriority([x] + s, p) == (if Priority(x) == p then [x] else []) + WithPriority(s, p)
  {
    assert ([x] + s)[0] == x && ([x] + s)[1..] == s;
  }

  lemma {:induction false} InsertWithPriority(x: string, s: seq<string>, p: int)
    ensures WithPriority(InsertByPriority(x, s), p) ==
      (if Priority(x) == p then [x] else []) + WithPriority(s, p)
    decreases |s|
  {
    if s == [] || Priority(x) <= Priority(s[0]) {
      WithPriorityCons(x, s, p);
    } else {
      InsertWithPriority(x, s[1..], p);
      WithPriorityCons(s[0], InsertByPriority(x, s[1..]), p);
      WithPriorityCons(s[0], s[1..], p);
      assert s == [s[0]] + s[1..];
    }
  }

  /** Stability: the names of each priority run in the order they were selected. */
  lemma {:induction false} SortStable(s: seq<string>, p: int)
    ensures WithPriority(SortByPriority(s), p) == WithPriority(s, p)
    decreases |s|
  {
    if s != [] {
      SortStable(s[1..], p);
      InsertWithPriority(s[0], SortByPriority(s[1..]), p);
    }
  }

  lemma {:induction false} NoneBelow(s: seq<string>, p: int)
    requires AllAtLeast(s, p + 1)
    ensures WithPriority(s, p) == []
    decreases |s|
  {
    if s != [] {
      NoneBelow(s[1..], p);
    }
  }

  lemma {:induction false} SortedSplits(r: seq<string>)
    requires Sorted(r)
    ensures r == WithPriority(r, 1) + WithPriority(r, 2) + WithPriority(r, 999)
    decreases |r|
  {
    if r != [] {
      var t := r[1..];
      SortedTail(r);
      SortedSplits(t);
      PriorityTable(r[0]);
      var p := Priority(r[0]);
      if p >= 2 {
        NoneBelow(t, 1);
      }
      if p == 999 {
        NoneBelow(t, 2);
      }
      assert r == [r[0]] + t;
      WithPriorityCons(r[0], t, 1);
      WithPriorityCons(r[0], t, 2);
      WithPriorityCons(r[0], t, 999);
    }
  }

  /**
   * The execution order is the eslint-level names, then the CSS-framework
   * names, then all unknown names, each group in selection order.
   */
  lemma SortIsBuckets(s: seq<string>)
    ensures SortByPriority(s) == WithPriority(s, 1) + WithPriority(s, 2) + WithPriority(s, 999)
  {
    SortSorted(s);
    SortedSplits(SortByPriority(s));
    SortStable(s, 1);
    SortStable(s, 2);
    SortStable(s, 999);
  }

  /** eslint moves ahead of unocss; tailwind and unocss keep their relative order. */
  lemma SortExamples()
    ensures SortByPriority(["unocss", "eslint"]) == ["eslint", "unocss"]
    ensures SortByPriority(["unocss", "tailwind"]) == ["unocss", "tailwind"]
    ensures SortByPriority(["tailwind", "unocss"]) == ["tailwind", "unocss"]
  {
    assert SortByPriority(["eslint"]) == ["eslint"];
    assert SortByPriority(["tailwind"]) == ["tailwind"];
    assert SortByPriority(["unocss"]) == ["unocss"];
  }

  // ---------------------------------------------------------------------------
  // applyPlugins
  // ---------------------------------------------------------------------------

  datatype Failed = Failed(name: string, error: string)

  /** The `{ success, failed }` record `applyPlugins` returns. */
  datatype Results = Results(success: seq<string>, failed: seq<Failed>)

  /** Manifest, files and results between two loop iterations. */
  datatype State = State(pkg: Manifest, files: Files, results: Results)

  /** `plugin.setup(root, template, pkg)`, as the effect of the plugin it dispatches to. */
  function RunPlugin(p: Plugin, root: string, template: string, pkg: Manifest, files: Files, faults: Faults): Effect {
    match p
    case EslintPlugin => Eslint.SetupEffect(root, template, pkg, files, faults)
    case TailwindPlugin => Tailwind.SetupEffect(root, template, pkg, files, faults)
    case UnocssPlugin => Unocss.SetupEffect(root, template, pkg, files, faults)
  }

  /** The setup routines as `applyPlugins` sees them: plugin, manifest and files to effect. */
  type Runner = (Plugin, Manifest, Files) -> Effect

  /** The routines of the built-in plugins for one project root, template and fault oracle. */
  function Setups(root: string, template: string, faults: Faults): Runner {
    (p, pkg, files) => RunPlugin(p, root, template, pkg, files, faults)
  }

  /** `!plugin`: the name finds neither an own entry nor an inherited member. */
  predicate NotFound(reg: Registry, name: string) {
    Lookup(reg, name).None? && name !in ObjectMembers
  }

  /** `!plugin.setup`: the name finds an inherited member, or an own entry without a setup routine. */
  predicate MissesSetup(reg: Registry, name: string) {
    || (Lookup(reg, name).None? && name in ObjectMembers)
    || (Lookup(reg, name).Some? && Lookup(reg, name).value.setup.None?)
  }

  /** One iteration of the loop, for the plugin called `name`. */
  function Step(reg: Registry, run: Runner, st: State, name: string): State {
    match Lookup(reg, name)
    case None =>
      if name in ObjectMembers then
        st.(results := st.results.(failed := st.results.failed + [Failed(name, "Plugin missing setup method")]))
      else
        st.(results := st.results.(failed := st.results.failed + [Failed(name, "Plugin not found")]))
    case Some(d) =>
      match d.setup
      case None => st.(results := st.results.(failed := st.results.failed + [Failed(name, "Plugin missing setup method")]))
      case Some(p) =>
        var e := run(p, st.pkg, st.files);
        State(e.pkg, e.files,
          if e.outcome.Success? then st.results.(success := st.results.success + [name])
          else st.results.(failed := st.results.failed + [Failed(name, e.outcome.error)]))
  }

  /** The loop over `names`, one step per name, in order. */
  function ApplyAll(reg: Registry, run: Runner, st: State, names: seq<string>): State
    decreases |names|
  {
    if names == [] then st
    else Step(reg, run, ApplyAll(reg, run, st, names[..|names| - 1]), names[|names| - 1])
  }

  /** What `applyPlugins(selected, root, template, pkg)` does, starting from empty results. */
  function ApplyPluginsEffect(reg: Registry, selected: seq<string>, root: string, template: string,
                              pkg: Manifest, files: Files, faults: Faults): State {
    ApplyAll(reg, Setups(root, template, faults), State(pkg, files, Results([], [])), SortByPriority(selected))
  }

  /** Calls the setup routine of `p`. */
  method RunSetup(p: Plugin, root: string, template: string, pkg: Package, fs: FileSystem) returns (r: Outcome)
    modifies pkg, fs
    ensures Effect(pkg.Value(), fs.files, r) == RunPlugin(p, root, template, old(pkg.Value()), old(fs.files), fs.faults)
  {
    match p
    case EslintPlugin => r := Eslint.Setup(root, template, pkg, fs);
    case TailwindPlugin => r := Tailwind.Setup(root, template, pkg, fs);
    case UnocssPlugin => r := Unocss.Setup(root, template, pkg, fs);
  }

  /**
   * `applyPlugins`: runs the selected plugins in priority order; a plugin that
   * is unknown, has no setup or throws is recorded as failed and the loop
   * goes on with what the failed setup already changed.
   */
  method ApplyPlugins(reg: Registry, selectedPlugins: seq<string>, root: string, template: string,
                      pkg: Package, fs: FileSystem) returns (results: Results)
    modifies pkg, fs
    ensures State(pkg.Value(), fs.files, results) ==
      ApplyPluginsEffect(reg, selectedPlugins, root, template, old(pkg.Value()), old(fs.files), fs.faults)
  {
    results := Results([], []);
    var sortedPlugins := SortByPriority(selectedPlugins);
    ghost var start := State(pkg.Value(), fs.files, results);
    var i := 0;
    while i < |sortedPlugins|
      invariant 0 <= i <= |sortedPlugins|
      invariant State(pkg.Value(), fs.files, results) == ApplyAll(reg, Setups(root, template, fs.faults), start, sortedPlugins[..i])
    {
      var pluginName := sortedPlugins[i];
      var plugin := Lookup(reg, pluginName);
      if plugin.None? && pluginName !in ObjectMembers {
        results := results.(failed := results.failed + [Failed(pluginName, "Plugin not found")]);
      } else if plugin.None? || plugin.value.setup.None? {
        results := results.(failed := results.failed + [Failed(pluginName, "Plugin missing setup method")]);
      } else {
        var outcome := RunSetup(plugin.value.setup.value, root, template, pkg, fs);
        if outcome.Success? {
          results := results.(success := results.success + [pluginName]);
        } else {
          results := results.(failed := results.failed + [Failed(pluginName, outcome.error)]);
        }
      }
      assert sortedPlugins[..i + 1][..i] == sortedPlugins[..i];
      i := i + 1;
    }
    assert sortedPlugins[..|sortedPlugins|] == sortedPlugins;
  }

  // ---------------------------------------------------------------------------
  // What the results say
  // ---------------------------------------------------------------------------

  function FailedNames(f: seq<Failed>): (ns: seq<string>)
    ensures |ns| == |f| && forall i :: 0 <= i < |f| ==> ns[i] == f[i].name
  {
    seq(|f|, i requires 0 <= i < |f| => f[i].name)
  }

  /** `names` is `a` and `b` merged, each kept in its own order. */
  predicate Interleaving(names: seq<string>, a: seq<string>, b: seq<string>)
    decreases |names|
  {
    if names == [] then a == [] && b == []
    else
      var n := names[|names| - 1];
      var rest := names[..|names| - 1];
      (|a| > 0 && a[|a| - 1] == n && Interleaving(rest, a[..|a| - 1], b)) ||
      (|b| > 0 && b[|b| - 1] == n && Interleaving(rest, a, b[..|b| - 1]))
  }

  lemma {:induction false} InterleavingCounts(names: seq<string>, a: seq<string>, b: seq<string>)
    requires Interleaving(names, a, b)
    ensures |a| + |b| == |names|
    ensures multiset(a) + multiset(b) == multiset(names)
    decreases |names|
  {
    if names != [] {
      var n := names[|names| - 1];
      var rest := names[..|names| - 1];
      assert names == rest + [n];
      if |a| > 0 && a[|a| - 1] == n && Interleaving(rest, a[..|a| - 1], b) {
        InterleavingCounts(rest, a[..|a| - 1], b);
        assert a == a[..|a| - 1] + [n];
      } else {
        InterleavingCounts(rest, a, b[..|b| - 1]);
        assert b == b[..|b| - 1] + [n];
      }
    }
  }

  lemma FailedNamesSnoc(f: seq<Failed>, x: Failed)
    ensures FailedNames(f + [x]) == FailedNames(f) + [x.name]
  {
  }

  /** A name appended to the merged sequence can be appended to either list. */
  lemma InterleavingSnoc(rest: seq<string>, a: seq<string>, b: seq<string>, n: string, toSuccess: bool)
    requires Interleaving(rest, a, b)
    ensures toSuccess ==> Interleaving(rest + [n], a + [n], b)
    ensures !toSuccess ==> Interleaving(rest + [n], a, b + [n])
  {
    var names := rest + [n];
    assert names[..|names| - 1] == rest;
    if toSuccess {
      assert (a + [n])[..|a|] == a;
    } else {
      assert (b + [n])[..|b|] == b;
    }
  }

  /** What one step adds to the results: its name, at the end of exactly one of the two lists. */
  predicate Records(r: Results, r': Results, name: string) {
    || (r'.success == r.success + [name] && r'.failed == r.failed)
    || (r'.success == r.success && |r'.failed| == |r.failed| + 1 &&
        r'.failed == r.failed + [r'.failed[|r.failed|]] && r'.failed[|r.failed|].name == name)
  }

  /**
   * One step records its plugin exactly once: a name with neither an own
   * entry nor an inherited member as `Plugin not found`, an inherited member
   * or an entry without setup as `Plugin missing setup method`, and a setup
   * routine's outcome as a success or as a failure with its message.
   */
  lemma StepRecords(reg: Registry, run: Runner, st: State, name: string)
    ensures var r := Step(reg, run, st, name).results;
      && Records(st.results, r, name)
      && (NotFound(reg, name) ==> r.failed == st.results.failed + [Failed(name, "Plugin not found")])
      && (MissesSetup(reg, name) ==> r.failed == st.results.failed + [Failed(name, "Plugin missing setup method")])
      && (r.success != st.results.success ==> Lookup(reg, name).Some? && Lookup(reg, name).value.setup.Some?)
      && (Lookup(reg, name).Some? && Lookup(reg, name).value.setup.Some? ==>
            var e := run(Lookup(reg, name).value.setup.value, st.pkg, st.files);
            Step(reg, run, st, name) == State(e.pkg, e.files,
              if e.outcome.Success? then st.results.(success := st.results.success + [name])
              else st.results.(failed := st.results.failed + [Failed(name, e.outcome.error)])))
  {
  }

  lemma ApplyAllSnoc(reg: Registry, run: Runner, st: State, rest: seq<string>, n: string)
    ensures ApplyAll(reg, run, st, rest + [n]) == Step(reg, run, ApplyAll(reg, run, st, rest), n)
  {
    assert (rest + [n])[..|rest|] == rest;
  }

  /**
   * Every name processed lands in exactly one of the two lists, each list in
   * processing order.
   */
  lemma {:induction false} ApplyAllInterleaves(reg: Registry, run: Runner, st: State, names: seq<string>)
    requires st.results == Results([], [])
    ensures var r := ApplyAll(reg, run, st, names).results;
      Interleaving(names, r.success, FailedNames(r.failed))
    decreases |names|
  {
    if names != [] {
      var rest := names[..|names| - 1];
      var n := names[|names| - 1];
      assert names == rest + [n];
      ApplyAllInterleaves(reg, run, st, rest);
      ApplyAllSnoc(reg, run, st, rest, n);
      var mid := ApplyAll(reg, run, st, rest);
      StepRecords(reg, run, mid, n);
      var before := mid.results;
      var after := Step(reg, run, mid, n).results;
      if after.success == before.success + [n] && after.failed == before.failed {
        InterleavingSnoc(rest, before.success, FailedNames(before.failed), n, true);
      } else {
        FailedNamesSnoc(before.failed, after.failed[|before.failed|]);
        InterleavingSnoc(rest, before.success, FailedNames(before.failed), n, false);
      }
    }
  }

  /**
   * The results of `applyPlugins` partition the execution order: success and
   * failed names interleave to the sorted selection, so together they have
   * exactly as many entries as were selected.
   */
  lemma ResultsPartitionSelection(reg: Registry, selected: seq<string>, root: string, template: string,
                                  pkg: Manifest, files: Files, faults: Faults)
    ensures var r := ApplyPluginsEffect(reg, selected, root, template, pkg, files, faults).results;
      && Interleaving(SortByPriority(selected), r.success, FailedNames(r.failed))
      && |r.success| + |r.failed| == |selected|
      && multiset(r.success) + multiset(FailedNames(r.failed)) == multiset(selected)
  {
    var run := Setups(root, template, faults);
    var start := State(pkg, files, Results([], []));
    var sorted := SortByPriority(selected);
    var r := ApplyAll(reg, run, start, sorted).results;
    assert r == ApplyPluginsEffect(reg, selected, root, template, pkg, files, faults).results;
    ApplyAllInterleaves(reg, run, start, sorted);
    InterleavingCounts(sorted, r.success, FailedNames(r.failed));
    SortPermutes(selected);
    assert |sorted| == |multiset(sorted)| == |multiset(selected)| == |selected|;
  }

  /**
   * Unknown names fail with `Plugin not found`; inherited member names and
   * entries without setup fail with `Plugin missing setup method`; and only
   * names with a setup routine can succeed.
   */
  lemma {:induction false} ApplyAllRecords(reg: Registry, run: Runner, st: State, names: seq<string>)
    requires st.results == Results([], [])
    ensures var r := ApplyAll(reg, run, st, names).results;
      && (forall n :: n in names && NotFound(reg, n) ==> Failed(n, "Plugin not found") in r.failed)
      && (forall n :: n in names && MissesSetup(reg, n) ==> Failed(n, "Plugin missing setup method") in r.failed)
      && (forall n :: n in r.success ==> n in names && Lookup(reg, n).Some? && Lookup(reg, n).value.setup.Some?)
    decreases |names|
  {
    if names != [] {
      var rest := names[..|names| - 1];
      var n := names[|names| - 1];
      assert names == rest + [n];
      ApplyAllRecords(reg, run, st, rest);
      ApplyAllSnoc(reg, run, st, rest, n);
      var mid := ApplyAll(reg, run, st, rest);
      StepRecords(reg, run, mid, n);
      var before := mid.results;
      var after := Step(reg, run, mid, n).results;
      assert forall x :: x in before.failed ==> x in after.failed;
      assert forall x :: x in after.success ==> x in before.success || x == n;
    }
  }

  /**
   * With the built-in registry a name is reported as lacking a setup routine
   * only when it is a selected name inherited from `Object.prototype`, as
   * long as no setup routine fails with that very message.
   */
  lemma {:induction false} NeverMissesSetupWith(run: Runner, st: State, names: seq<string>)
    requires st.results == Results([], [])
    requires forall p, pkg, files :: run(p, pkg, files).outcome != Failure("Plugin missing setup method")
    ensures forall f :: f in ApplyAll(Plugins, run, st, names).results.failed && f.error == "Plugin missing setup method" ==>
      f.name in ObjectMembers && f.name in names
    decreases |names|
  {
    if names != [] {
      var rest := names[..|names| - 1];
      var n := names[|names| - 1];
      assert names == rest + [n];
      NeverMissesSetupWith(run, st, rest);
      ApplyAllSnoc(Plugins, run, st, rest, n);
      var mid := ApplyAll(Plugins, run, st, rest);
      StepRecords(Plugins, run, mid, n);
      BuiltinLookup(n);
      assert forall x :: x in rest ==> x in names;
    }
  }

  /** Every failure a built-in setup routine reports starts with `Failed to `. */
  lemma RunPluginFailureMessage(p: Plugin, root: string, template: string, pkg: Manifest, files: Files, faults: Faults)
    ensures var o := RunPlugin(p, root, template, pkg, files, faults).outcome;
      o.Failure? ==> "Failed to " <= o.error
  {
    match p
    case EslintPlugin => Eslint.SetupFailureMessage(root, template, pkg, files, faults);
    case TailwindPlugin => Tailwind.SetupFailureMessage(root, template, pkg, files, faults);
    case UnocssPlugin => Unocss.SetupFailureMessage(root, template, pkg, files, faults);
  }

  /**
   * With the built-in registry and routines a plugin is reported as lacking a
   * setup routine only for a selected name inherited from `Object.prototype`;
   * so a selection of none of those never gets that message.
   */
  lemma BuiltinNeverMissesSetup(root: string, template: string, faults: Faults, pkg: Manifest, files: Files,
                                names: seq<string>)
    ensures var failed := ApplyAll(Plugins, Setups(root, template, faults), State(pkg, files, Results([], [])), names).results.failed;
      forall f :: f in failed && f.error == "Plugin missing setup method" ==> f.name in ObjectMembers && f.name in names
  {
    var run := Setups(root, template, faults);
    forall p, m, fs
      ensures run(p, m, fs).outcome != Failure("Plugin missing setup method")
    {
      RunPluginFailureMessage(p, root, template, m, fs, faults);
      var o := run(p, m, fs).outcome;
      if o.Failure? {
        assert o.error[0] == 'F';
      }
    }
    NeverMissesSetupWith(run, State(pkg, files, Results([], [])), names);
  }

  /**
   * `constructor` has no own entry in `plugins`, but `plugins["constructor"]`
   * is the inherited `Object` function, which has no `setup`: the name is
   * recorded as missing its setup method, and nothing else changes.
   */
  lemma InheritedNameMissesSetup(root: string, template: string, pkg: Manifest, files: Files, faults: Faults)
    ensures ApplyPluginsEffect(Plugins, ["constructor"], root, template, pkg, files, faults) ==
      State(pkg, files, Results([], [Failed("constructor", "Plugin missing setup method")]))
  {
    BuiltinLookup("constructor");
    assert SortByPriority(["constructor"]) == ["constructor"];
    assert ["constructor"][..0] == [];
  }

  lemma BuiltinDescriptors()
    ensures Lookup(Plugins, "eslint") == Some(Plugins[0].1)
    ensures Lookup(Plugins, "tailwind") == Some(Plugins[1].1)
    ensures Lookup(Plugins, "unocss") == Some(Plugins[2].1)
  {
    assert Plugins[1..][0] == Plugins[1];
    assert Plugins[1..][1..][0] == Plugins[2];
  }

  /**
   * A run of eslint then tailwind, for any setup routines under which eslint
   * fails without touching the files and tailwind then succeeds without
   * touching them: eslint is recorded as failed, tailwind still runs, and the
   * manifest carries both plugins' edits.
   */
  lemma IsolatedRunWith(run: Runner, pkg: Manifest, files: Files, e: Manifest, t: Manifest, msg: string)
    requires run(EslintPlugin, pkg, files) == Effect(e, files, Failure(msg))
    requires run(TailwindPlugin, e, files) == Effect(t, files, Success)
    ensures ApplyAll(Plugins, run, State(pkg, files, Results([], [])), ["eslint", "tailwind"]) ==
      State(t, files, Results(["tailwind"], [Failed("eslint", msg)]))
  {
    BuiltinDescriptors();
    TwoSteps(Plugins, run, State(pkg, files, Results([], [])), "eslint", "tailwind");
  }

  /** The run of eslint then tailwind when the eslint write fails and tailwind finds no files to patch. */
  lemma IsolatedRun(root: string, template: string, pkg: Manifest, files: Files, faults: Faults)
    requires Eslint.ConfigPath(root) in faults
    requires Tailwind.ConfigPath(root) !in files && Tailwind.CssPath(root, template) !in files
    ensures ApplyPluginsEffect(Plugins, ["tailwind", "eslint"], root, template, pkg, files, faults) ==
      State(Tailwind.SetupEffect(root, template, Eslint.SetupEffect(root, template, pkg, files, faults).pkg, files, faults).pkg,
            files,
            Results(["tailwind"], [Failed("eslint", StepFailed("create eslint.config.mjs", faults[Eslint.ConfigPath(root)]).error)]))
  {
    var run := Setups(root, template, faults);
    var e := Eslint.SetupEffect(root, template, pkg, files, faults);
    var t := Tailwind.SetupEffect(root, template, e.pkg, files, faults);
    EslintRunsFirst();
    Eslint.SetupFiles(root, template, pkg, files, faults);
    Tailwind.SetupWithoutFiles(root, template, e.pkg, files, faults);
    assert run(EslintPlugin, pkg, files) == e;
    assert run(TailwindPlugin, e.pkg, files) == t;
    IsolatedRunWith(run, pkg, files, e.pkg, t.pkg, StepFailed("create eslint.config.mjs", faults[Eslint.ConfigPath(root)]).error);
  }

  lemma EslintRunsFirst()
    ensures SortByPriority(["tailwind", "eslint"]) == ["eslint", "tailwind"]
  {
    assert SortByPriority(["eslint"]) == ["eslint"];
  }

  lemma TwoSteps(reg: Registry, run: Runner, st: State, a: string, b: string)
    ensures ApplyAll(reg, run, st, [a, b]) == Step(reg, run, Step(reg, run, st, a), b)
  {
    ApplyAllSnoc(reg, run, st, [], a);
    ApplyAllSnoc(reg, run, st, [a], b);
    assert [a] + [b] == [a, b];
  }

  /** Tailwind's merge keeps the eslint entry that eslint's merge made. */
  lemma ManifestAfterBoth(root: string, template: string, pkg: Manifest, files: Files, faults: Faults)
    requires WellFormed(pkg)
    ensures var m := Tailwind.SetupEffect(root, template, Eslint.SetupEffect(root, template, pkg, files, faults).pkg, files, faults).pkg;
      && m.devDependencies.Some?
      && Get(m.devDependencies.value, "eslint") == Some("^9.39.1")
      && Get(m.devDependencies.value, "tailwindcss") == Some("^4.1.0")
  {
    Eslint.SetupManifest(root, template, pkg, files, faults);
    var m1 := Eslint.SetupEffect(root, template, pkg, files, faults).pkg;
    Tailwind.SetupManifest(root, template, m1, files, faults);
    TailwindLeavesEslintEntry();
  }

  /**
   * Failure isolation: when writing `eslint.config.mjs` fails, eslint is
   * recorded as failed with the write's message, tailwind still runs after
   * it, and the eslint devDependencies merged before the failure are kept.
   */
  lemma EslintFailureIsolated(root: string, template: string, pkg: Manifest, files: Files, faults: Faults)
    requires WellFormed(pkg)
    requires Eslint.ConfigPath(root) in faults
    requires Tailwind.ConfigPath(root) !in files && Tailwind.CssPath(root, template) !in files
    ensures var st := ApplyPluginsEffect(Plugins, ["tailwind", "eslint"], root, template, pkg, files, faults);
      && st.results.success == ["tailwind"]
      && st.results.failed == [Failed("eslint", StepFailed("create eslint.config.mjs", faults[Eslint.ConfigPath(root)]).error)]
      && st.pkg.devDependencies.Some?
      && Get(st.pkg.devDependencies.value, "eslint") == Some("^9.39.1")
      && Get(st.pkg.devDependencies.value, "tailwindcss") == Some("^4.1.0")
      && st.files == files
  {
    IsolatedRun(root, template, pkg, files, faults);
    ManifestAfterBoth(root, template, pkg, files, faults);
  }

  lemma TailwindLeavesEslintEntry()
    ensures "eslint" !in Keys(Tailwind.DevDeps)
  {
    assert Keys(Tailwind.DevDeps) == ["tailwindcss", "@tailwindcss/vite"];
  }
}
