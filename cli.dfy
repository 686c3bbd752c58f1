/**
 * index.js: the pure helpers of the command-line entry point. They normalise
 * the target directory argument, check and repair npm package names, decide
 * whether a directory listing counts as empty, and list the templates.
 */
module Cli {
  import opened Wrappers
  import opened JsString
  import Utils

  // ---------------------------------------------------------------------------
  // formatTargetDir
  // ---------------------------------------------------------------------------

  /** Drops the leading characters that satisfy `p`. */
  function DropWhile(s: string, p: char -> bool): (r: string)
    ensures |r| <= |s| && r == s[|s| - |r|..]
    ensures forall i :: 0 <= i < |s| - |r| ==> p(s[i])
    ensures r == [] || !p(r[0])
    decreases |s|
  {
    if s != [] && p(s[0]) then DropWhile(s[1..], p) else s
  }

  /** Drops the trailing characters that satisfy `p`. */
  function DropWhileEnd(s: string, p: char -> bool): (r: string)
    ensures |r| <= |s| && r == s[..|r|]
    ensures forall i :: |r| <= i < |s| ==> p(s[i])
    ensures r == [] || !p(r[|r| - 1])
    decreases |s|
  {
    if s != [] && p(s[|s| - 1]) then DropWhileEnd(s[..|s| - 1], p) else s
  }

  /** `s.trim()`, over the white space of `IsSpace`. */
  function Trim(s: string): string {
    DropWhileEnd(DropWhile(s, IsSpace), IsSpace)
  }

  /** The trimmed text starts and ends with a non-space. */
  lemma TrimStrips(s: string)
    ensures var t := Trim(s); t == [] || (!IsSpace(t[0]) && !IsSpace(t[|t| - 1]))
  {
    var d := DropWhile(s, IsSpace);
    var t := Trim(s);
    if t != [] {
      assert t[0] == d[0];
    }
  }

  /** A text that neither starts nor ends with white space is its own trim. */
  lemma TrimKeeps(s: string)
    requires s == [] || (!IsSpace(s[0]) && !IsSpace(s[|s| - 1]))
    ensures Trim(s) == s
  {
    assert DropWhile(s, IsSpace) == s;
  }

  predicate IsSlash(c: char) {
    c == '/'
  }

  /** `targetDir?.trim().replace(/\/+$/g, '')`: an absent argument stays absent. */
  function FormatTargetDir(targetDir: Option<string>): (r: Option<string>)
    ensures r.None? <==> targetDir.None?
  {
    match targetDir
    case None => None
    case Some(s) => Some(DropWhileEnd(Trim(s), IsSlash))
  }

  /**
   * The formatted directory never ends in `/`, and it is the trimmed argument
   * with exactly its trailing run of `/` removed.
   */
  lemma FormatTargetDirStripsSlashes(s: string)
    ensures var r := FormatTargetDir(Some(s)).value;
      && (r == [] || r[|r| - 1] != '/')
      && r <= Trim(s) && forall i :: |r| <= i < |Trim(s)| ==> Trim(s)[i] == '/'
  {
    var t := Trim(s);
    var r := DropWhileEnd(t, IsSlash);
    assert r == t[..|r|];
    forall i | |r| <= i < |t|
      ensures t[i] == '/'
    {
      assert IsSlash(t[i]);
    }
  }

  // ---------------------------------------------------------------------------
  // isValidPackageName
  // ---------------------------------------------------------------------------

  predicate IsLowerOrDigit(c: char) {
    ('a' <= c <= 'z') || ('0' <= c <= '9')
  }

  /** `[a-z\d\-*~]`: the first character of a scope. */
  predicate ScopeStart(c: char) {
    IsLowerOrDigit(c) || c == '-' || c == '*' || c == '~'
  }

  /** `[a-z\d\-*._~]`: the other characters of a scope. */
  predicate ScopeChar(c: char) {
    ScopeStart(c) || c == '.' || c == '_'
  }

  /** `[a-z\d\-~]`: the first character of a name. */
  predicate NameStart(c: char) {
    IsLowerOrDigit(c) || c == '-' || c == '~'
  }

  /** `[a-z\d\-._~]`: the other characters of a name. */
  predicate NameChar(c: char) {
    NameStart(c) || c == '.' || c == '_'
  }

  predicate IsScope(s: string) {
    |s| >= 1 && ScopeStart(s[0]) && forall i :: 1 <= i < |s| ==> ScopeChar(s[i])
  }

  predicate IsBareName(s: string) {
    |s| >= 1 && NameStart(s[0]) && forall i :: 1 <= i < |s| ==> NameChar(s[i])
  }

  /** The language of `^(?:@scope\/)?name$`: a name, optionally preceded by `@`, a scope and `/`. */
  ghost predicate MatchesPackagePattern(s: string) {
    IsBareName(s) ||
    exists k :: 1 < k < |s| && s[0] == '@' && IsScope(s[1..k]) && s[k] == '/' && IsBareName(s[k + 1..])
  }

  /** Index of the first `/` at or after `i`, or `|s|`. */
  function SlashFrom(s: string, i: nat): (k: nat)
    requires i <= |s|
    ensures i <= k <= |s| && (k < |s| ==> s[k] == '/') && forall m :: i <= m < k ==> s[m] != '/'
    decreases |s| - i
  {
    if i == |s| || s[i] == '/' then i else SlashFrom(s, i + 1)
  }

  /**
   * `isValidPackageName`: a name starting with `@` must be scoped, and its
   * scope ends at the first `/` since scopes contain no `/`.
   */
  function IsValidPackageName(s: string): bool {
    if |s| > 0 && s[0] == '@' then
      var k := SlashFrom(s, 1);
      k < |s| && IsScope(s[1..k]) && IsBareName(s[k + 1..])
    else IsBareName(s)
  }

  /** A scope holds no `/`, so the first `/` after `@` is the one that closes it. */
  lemma ScopeEndsAtSlash(s: string, k: nat)
    requires 1 < k < |s| && IsScope(s[1..k]) && s[k] == '/'
    ensures SlashFrom(s, 1) == k
  {
    forall m | 1 <= m < k
      ensures s[m] != '/'
    {
      assert s[1..k][m - 1] == s[m];
    }
  }

  /** The computed test accepts exactly the strings of the pattern's language. */
  lemma IsValidPackageNameMatchesPattern(s: string)
    ensures IsValidPackageName(s) <==> MatchesPackagePattern(s)
  {
    if |s| > 0 && s[0] == '@' {
      var k := SlashFrom(s, 1);
      assert !IsBareName(s);
      if MatchesPackagePattern(s) {
        var k' :| 1 < k' < |s| && s[0] == '@' && IsScope(s[1..k']) && s[k'] == '/' && IsBareName(s[k' + 1..]);
        ScopeEndsAtSlash(s, k');
      }
      if IsValidPackageName(s) {
        assert 1 < k;
      }
    }
  }

  /** An accepted name is not empty and has no upper-case letter. */
  lemma IsValidPackageNameRejects(s: string)
    ensures IsValidPackageName(s) ==> s != [] && forall i :: 0 <= i < |s| ==> !('A' <= s[i] <= 'Z')
  {
    if IsValidPackageName(s) && s[0] == '@' {
      var k := SlashFrom(s, 1);
      forall i | 0 <= i < |s|
        ensures !('A' <= s[i] <= 'Z')
      {
        if 0 < i < k {
          assert s[1..k][i - 1] == s[i];
        } else if i > k {
          assert s[k + 1..][i - k - 1] == s[i];
        }
      }
    }
  }

  // ---------------------------------------------------------------------------
  // toValidPackageName
  // ---------------------------------------------------------------------------

  /** ASCII `toLowerCase`. */
  function ToLower(c: char): char {
    if 'A' <= c <= 'Z' then (c as int + 32) as char else c
  }

  function LowerAll(s: string): (r: string)
    ensures |r| == |s| && forall i :: 0 <= i < |s| ==> r[i] == ToLower(s[i])
  {
    seq(|s|, i requires 0 <= i < |s| => ToLower(s[i]))
  }

  /** `s.replace(/X+/g, sep)` where `X` is the class `isRun`: each maximal run becomes one `sep`. */
  function CollapseRuns(s: string, isRun: char -> bool, sep: char): string
    decreases |s|
  {
    if s == [] then []
    else if isRun(s[0]) then [sep] + CollapseRuns(DropWhile(s[1..], isRun), isRun, sep)
    else [s[0]] + CollapseRuns(s[1..], isRun, sep)
  }

  /** `s.replace(/^[._]/, '')`. */
  function DropLeadingDotOrUnderscore(s: string): string {
    if |s| > 0 && (s[0] == '.' || s[0] == '_') then s[1..] else s
  }

  predicate IsNotNameStart(c: char) {
    !NameStart(c)
  }

  /** `toValidPackageName`. */
  function ToValidPackageName(projectName: string): string {
    var lowered := LowerAll(Trim(projectName));
    var dashed := CollapseRuns(lowered, IsSpace, '-');
    CollapseRuns(DropLeadingDotOrUnderscore(dashed), IsNotNameStart, '-')
  }

  /** After a collapse, every character is `sep` or a character outside the class. */
  lemma {:induction false} CollapseRunsChars(s: string, isRun: char -> bool, sep: char)
    ensures forall i :: 0 <= i < |CollapseRuns(s, isRun, sep)| ==>
      CollapseRuns(s, isRun, sep)[i] == sep || !isRun(CollapseRuns(s, isRun, sep)[i])
    decreases |s|
  {
    if s != [] {
      if isRun(s[0]) {
        CollapseRunsChars(DropWhile(s[1..], isRun), isRun, sep);
      } else {
        CollapseRunsChars(s[1..], isRun, sep);
      }
    }
  }

  /** Nothing to collapse leaves the text as it is. */
  lemma {:induction false} CollapseRunsNone(s: string, isRun: char -> bool, sep: char)
    requires forall i :: 0 <= i < |s| ==> !isRun(s[i])
    ensures CollapseRuns(s, isRun, sep) == s
    decreases |s|
  {
    if s != [] {
      CollapseRunsNone(s[1..], isRun, sep);
      assert s == [s[0]] + s[1..];
    }
  }

  /** The repaired name consists of `[a-z0-9-~]` characters only. */
  lemma ToValidPackageNameChars(projectName: string)
    ensures forall i :: 0 <= i < |ToValidPackageName(projectName)| ==> NameStart(ToValidPackageName(projectName)[i])
  {
    var lowered := LowerAll(Trim(projectName));
    var dashed := CollapseRuns(lowered, IsSpace, '-');
    CollapseRunsChars(DropLeadingDotOrUnderscore(dashed), IsNotNameStart, '-');
  }

  /** A non-empty repaired name passes `isValidPackageName`, so it is a valid prompt default. */
  lemma ToValidPackageNameIsValid(projectName: string)
    requires ToValidPackageName(projectName) != []
    ensures IsValidPackageName(ToValidPackageName(projectName))
  {
    ToValidPackageNameChars(projectName);
  }

  /** A text without white space at either end is its own trim. */
  lemma NameStartTextTrimmed(r: string)
    requires forall i :: 0 <= i < |r| ==> NameStart(r[i])
    ensures Trim(r) == r
  {
    if r != [] {
      assert NameStart(r[0]) && NameStart(r[|r| - 1]);
    }
    TrimKeeps(r);
  }

  lemma NameStartTextLowered(r: string)
    requires forall i :: 0 <= i < |r| ==> NameStart(r[i])
    ensures LowerAll(r) == r
  {
  }

  /** A text made only of `[a-z0-9-~]` characters is its own repair. */
  lemma RepairKeepsNameStartText(r: string)
    requires forall i :: 0 <= i < |r| ==> NameStart(r[i])
    ensures ToValidPackageName(r) == r
  {
    NameStartTextTrimmed(r);
    NameStartTextLowered(r);
    assert forall i :: 0 <= i < |r| ==> !IsSpace(r[i]);
    CollapseRunsNone(r, IsSpace, '-');
    assert r != [] ==> NameStart(r[0]);
    assert DropLeadingDotOrUnderscore(r) == r;
    CollapseRunsNone(r, IsNotNameStart, '-');
  }

  /** Repairing a repaired name changes nothing. */
  lemma ToValidPackageNameIdempotent(projectName: string)
    ensures ToValidPackageName(ToValidPackageName(projectName)) == ToValidPackageName(projectName)
  {
    ToValidPackageNameChars(projectName);
    RepairKeepsNameStartText(ToValidPackageName(projectName));
  }

  // ---------------------------------------------------------------------------
  // isEmpty and the templates
  // ---------------------------------------------------------------------------

  /** `isEmpty` over the directory's listing. */
  predicate IsEmpty(files: seq<string>) {
    |files| == 0 || (|files| == 1 && files[0] == ".git")
  }

  /** For a listing without repeats: empty means that nothing but `.git` is there. */
  lemma IsEmptyMeansOnlyGit(files: seq<string>)
    requires forall i, j :: 0 <= i < j < |files| ==> files[i] != files[j]
    ensures IsEmpty(files) <==> forall i :: 0 <= i < |files| ==> files[i] == ".git"
  {
    if |files| >= 2 {
      assert files[0] != files[1];
    }
  }

  datatype Variant = Variant(name: string, display: string)

  datatype Framework = Framework(name: string, display: string, variants: seq<Variant>)

  /** `FRAMEWORKS` (the colours are left out). */
  const Frameworks: seq<Framework> := [
    Framework("vue", "Vue", [Variant("vue-ts", "TypeScript"), Variant("vue", "JavaScript")]),
    Framework("react", "React", [Variant("react-ts", "TypeScript"), Variant("react", "JavaScript")])
  ]

  function VariantNames(vs: seq<Variant>): (ns: seq<string>)
    ensures |ns| == |vs| && forall i :: 0 <= i < |vs| ==> ns[i] == vs[i].name
  {
    seq(|vs|, i requires 0 <= i < |vs| => vs[i].name)
  }

  /** `frameworks.flatMap(f => f.variants.map(v => v.name))`. */
  function TemplateNames(frameworks: seq<Framework>): seq<string>
    decreases |frameworks|
  {
    if frameworks == [] then [] else VariantNames(frameworks[0].variants) + TemplateNames(frameworks[1..])
  }

  /** `TEMPLATES`. */
  function Templates(): seq<string> {
    TemplateNames(Frameworks)
  }

  /** The templates, in menu order. */
  lemma TemplatesList()
    ensures Templates() == ["vue-ts", "vue", "react-ts", "react"]
  {
    assert Frameworks[1..][1..] == [];
    assert VariantNames(Frameworks[0].variants) == ["vue-ts", "vue"];
    assert VariantNames(Frameworks[1].variants) == ["react-ts", "react"];
  }

  /** The facets `getTemplateInfo` derives from each template agree with the menu it came from. */
  lemma TemplatesAgreeWithInfo()
    ensures forall f, v :: f in Frameworks && v in f.variants ==>
      Utils.GetTemplateInfo(v.name).framework == f.name &&
      (Utils.GetTemplateInfo(v.name).isTypeScript <==> v.display == "TypeScript")
  {
    forall f, v | f in Frameworks && v in f.variants
      ensures Utils.GetTemplateInfo(v.name).framework == f.name
      ensures Utils.GetTemplateInfo(v.name).isTypeScript <==> v.display == "TypeScript"
    {
      VariantInfo(f, v);
    }
  }

  lemma VariantInfo(f: Framework, v: Variant)
    requires f in Frameworks && v in f.variants
    ensures Utils.GetTemplateInfo(v.name).framework == f.name
    ensures Utils.GetTemplateInfo(v.name).isTypeScript <==> v.display == "TypeScript"
  {
    if f == Frameworks[0] {
      VueInfo();
      assert v == Variant("vue-ts", "TypeScript") || v == Variant("vue", "JavaScript");
    } else {
      ReactInfo();
      assert v == Variant("react-ts", "TypeScript") || v == Variant("react", "JavaScript");
    }
  }

  lemma VueInfo()
    ensures var ts, js := Utils.GetTemplateInfo("vue-ts"), Utils.GetTemplateInfo("vue");
      ts.framework == "vue" && ts.isTypeScript && js.framework == "vue" && !js.isTypeScript
  {
    assert IsAt("vue-ts", "-ts", 3);
    assert IsAt("vue-ts", "vue", 0);
    assert IsAt("vue", "vue", 0);
    NotIncludes("vue-ts", "react");
    NotIncludes("vue", "react");
    NotIncludes("vue", "-ts");
  }

  lemma ReactInfo()
    ensures var ts, js := Utils.GetTemplateInfo("react-ts"), Utils.GetTemplateInfo("react");
      ts.framework == "react" && ts.isTypeScript && js.framework == "react" && !js.isTypeScript
  {
    assert IsAt("react-ts", "-ts", 5);
    assert IsAt("react-ts", "react", 0);
    assert IsAt("react", "react", 0);
    NotIncludes("react", "-ts");
  }

  /** A needle whose first character is nowhere in the text never occurs in it. */
  lemma NotIncludes(s: string, n: string)
    requires |n| > 0 && forall i :: 0 <= i < |s| ==> s[i] != n[0]
    ensures !Includes(s, n)
  {
    forall i | 0 <= i && i + |n| <= |s|
      ensures !IsAt(s, n, i)
    {
      assert s[i..i + |n|][0] == s[i];
    }
  }
}
